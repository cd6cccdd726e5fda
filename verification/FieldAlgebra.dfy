/** Identities in commutative rings and cancellation in fields. */
module FieldAlgebra {
  import opened Algebra

  /** A ring with a division: `inv` is meant for nonzero elements only. */
  datatype Field<!T> = Field(R: Ring<T>, inv: T -> T)

  ghost predicate InverseAt<T>(F: Field<T>, x: T) {
    x != F.R.zero ==> F.R.mul(x, F.inv(x)) == F.R.one
  }

  ghost predicate IsField<T(!new)>(F: Field<T>) {
    CommRing(F.R) && F.R.one != F.R.zero && forall x :: InverseAt(F, x)
  }

  function Div<T>(F: Field<T>, x: T, y: T): T {
    F.R.mul(x, F.inv(y))
  }

  lemma Telescope<T(!new)>(R: Ring<T>, a: T, b: T, c: T)
    requires CommRing(R)
    ensures R.add(Sub(R, a, b), Sub(R, b, c)) == Sub(R, a, c)
  {
    assert Laws(R, Sub(R, a, b), b, R.neg(c));
    SubLaws(R, a, b);
  }

  lemma SubSwap<T(!new)>(R: Ring<T>, a: T, b: T, c: T, d: T)
    requires CommRing(R)
    ensures Sub(R, R.add(a, b), R.add(c, d)) == R.add(Sub(R, a, c), Sub(R, b, d))
  {
    NegLaws(R, c, d);
    AddSwap(R, a, b, R.neg(c), R.neg(d));
  }

  lemma SubShift<T(!new)>(R: Ring<T>, a: T, b: T, c: T)
    requires CommRing(R)
    ensures Sub(R, R.add(a, b), R.add(a, c)) == Sub(R, b, c)
    ensures Sub(R, R.add(b, a), R.add(c, a)) == Sub(R, b, c)
  {
    SubSwap(R, a, b, a, c);
    SubSwap(R, b, a, c, a);
    SubLaws(R, a, a);
    assert Laws(R, Sub(R, b, c), R.zero, R.zero);
  }

  /** `x - y == z` exactly when `x == y + z`. */
  lemma SubIff<T(!new)>(R: Ring<T>, x: T, y: T, z: T)
    requires CommRing(R)
    ensures Sub(R, x, y) == z <==> x == R.add(y, z)
  {
    SubLaws(R, x, y);
    assert Laws(R, y, z, z);
    SubLaws(R, z, y);
    assert Laws(R, Sub(R, x, y), y, y);
  }

  lemma DifferenceOfSquares<T(!new)>(R: Ring<T>, p: T, q: T)
    requires CommRing(R)
    ensures R.mul(Sub(R, p, q), R.add(p, q)) == Sub(R, R.mul(p, p), R.mul(q, q))
  {
    var d := Sub(R, p, q);
    assert Laws(R, d, p, q);
    MulSub(R, p, p, q);
    MulSub(R, q, p, q);
    assert Laws(R, p, q, q);
    Telescope(R, R.mul(p, p), R.mul(q, p), R.mul(q, q));
  }

  function Cube<T>(R: Ring<T>, x: T): T {
    R.mul(R.mul(x, x), x)
  }

  lemma DifferenceOfCubes<T(!new)>(R: Ring<T>, u: T, v: T)
    requires CommRing(R)
    ensures R.mul(Sub(R, u, v), R.add(R.add(R.mul(u, u), R.mul(u, v)), R.mul(v, v))) == Sub(R, Cube(R, u), Cube(R, v))
  {
    var d, uu, uv, vv := Sub(R, u, v), R.mul(u, u), R.mul(u, v), R.mul(v, v);
    assert Laws(R, d, R.add(uu, uv), vv);
    assert Laws(R, d, uu, uv);
    MulSub(R, uu, u, v);
    MulSub(R, uv, u, v);
    MulSub(R, vv, u, v);
    assert Laws(R, u, uu, u); assert Laws(R, v, vv, v);
    assert Laws(R, v, u, u) && Laws(R, u, v, u) && Laws(R, u, uv, u);
    assert Laws(R, v, u, v) && Laws(R, u, v, v);
    Telescope(R, R.mul(u, uu), R.mul(v, uu), R.mul(v, uv));
    Telescope(R, R.mul(u, uu), R.mul(v, uv), R.mul(v, vv));
  }

  // Fields.

  lemma DivMul<T(!new)>(F: Field<T>, x: T, y: T)
    requires IsField(F) && y != F.R.zero
    ensures F.R.mul(Div(F, x, y), y) == x
  {
    assert InverseAt(F, y);
    assert Laws(F.R, x, F.inv(y), y);
    assert Laws(F.R, y, F.inv(y), y);
    assert Laws(F.R, x, F.R.one, x);
  }

  lemma CancelMul<T(!new)>(F: Field<T>, x: T, y: T, d: T)
    requires IsField(F) && d != F.R.zero
    ensures F.R.mul(x, d) == F.R.mul(y, d) <==> x == y
  {
    var R := F.R;
    assert InverseAt(F, d);
    assert Laws(R, x, d, F.inv(d));
    assert Laws(R, y, d, F.inv(d));
    assert Laws(R, x, R.one, x);
    assert Laws(R, y, R.one, y);
  }

  lemma ZeroProduct<T(!new)>(F: Field<T>, x: T, d: T)
    requires IsField(F) && d != F.R.zero && F.R.mul(d, x) == F.R.zero
    ensures x == F.R.zero
  {
    MulZero(F.R, d);
    assert Laws(F.R, d, x, x);
    CancelMul(F, x, F.R.zero, d);
  }

  lemma DifferenceNonzero<T(!new)>(F: Field<T>, x: T, y: T)
    requires IsField(F) && x != y
    ensures Sub(F.R, x, y) != F.R.zero
  {
    SubLaws(F.R, x, y);
  }

  /** The quotient is determined by its product with the divisor. */
  lemma DivUnique<T(!new)>(F: Field<T>, x: T, y: T, q: T)
    requires IsField(F) && y != F.R.zero && F.R.mul(q, y) == x
    ensures q == Div(F, x, y)
  {
    DivMul(F, x, y);
    CancelMul(F, q, Div(F, x, y), y);
  }
}
