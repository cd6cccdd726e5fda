/** Folding a list of constraints into one value with powers of a challenge. */
module ConstraintFolder {
  import opened Algebra
  import opened FieldAlgebra
  import opened Polynomial

  /** The accumulator after a list of constraints, in Horner's form. */
  function Folded<T>(R: Ring<T>, acc: T, alpha: T, xs: seq<T>): T
    decreases xs
  {
    if xs == [] then acc else Folded(R, R.add(R.mul(acc, alpha), xs[0]), alpha, xs[1..])
  }

  /** The accumulator after a list of constraints, with a table of powers. */
  function PowersFolded<T>(R: Ring<T>, acc: T, powers: seq<T>, xs: seq<T>): T
    requires |xs| <= |powers|
    decreases xs
  {
    if xs == [] then acc else PowersFolded(R, R.add(acc, R.mul(powers[0], xs[0])), powers[1..], xs[1..])
  }

  lemma {:induction false} FoldedSnoc<T>(R: Ring<T>, acc: T, alpha: T, xs: seq<T>, x: T)
    ensures Folded(R, acc, alpha, xs + [x]) == R.add(R.mul(Folded(R, acc, alpha, xs), alpha), x)
    decreases xs
  {
    if xs == [] {
      assert (xs + [x])[1..] == [];
    } else {
      assert (xs + [x])[1..] == xs[1..] + [x];
      FoldedSnoc(R, R.add(R.mul(acc, alpha), xs[0]), alpha, xs[1..], x);
    }
  }

  lemma {:induction false} PowersFoldedSnoc<T>(R: Ring<T>, acc: T, powers: seq<T>, xs: seq<T>, x: T)
    requires |xs| < |powers|
    ensures PowersFolded(R, acc, powers, xs + [x]) == R.add(PowersFolded(R, acc, powers, xs), R.mul(powers[|xs|], x))
    decreases xs
  {
    if xs == [] {
      assert (xs + [x])[1..] == [];
    } else {
      assert (xs + [x])[1..] == xs[1..] + [x];
      PowersFoldedSnoc(R, R.add(acc, R.mul(powers[0], xs[0])), powers[1..], xs[1..], x);
    }
  }

  /** The verifier's folder. */
  class HornerFolder<T> {
    const R: Ring<T>
    const alpha: T
    var accumulator: T
    ghost var asserted: seq<T>

    /** The accumulator is the fold of everything asserted so far. */
    ghost predicate Valid()
      reads this
    {
      accumulator == Folded(R, R.zero, alpha, asserted)
    }

    constructor (R: Ring<T>, alpha: T)
      ensures Valid() && this.R == R && this.alpha == alpha && asserted == []
    {
      this.R, this.alpha, accumulator, asserted := R, alpha, R.zero, [];
    }

    method AssertZero(x: T)
      requires Valid()
      modifies this
      ensures Valid() && asserted == old(asserted) + [x]
    {
      FoldedSnoc(R, R.zero, alpha, asserted, x);
      accumulator := R.mul(accumulator, alpha);
      accumulator := R.add(accumulator, x);
      asserted := asserted + [x];
    }

    /** Asserting every constraint of an evaluation in order. */
    method AssertAll(xs: seq<T>)
      requires Valid()
      modifies this
      ensures Valid() && asserted == old(asserted) + xs
    {
      for i := 0 to |xs|
        invariant Valid() && asserted == old(asserted) + xs[..i]
      {
        AssertZero(xs[i]);
      }
    }
  }

  /** The sumcheck prover's folder. */
  class PowersFolder<T> {
    const R: Ring<T>
    const powersOfAlpha: seq<T>
    var accumulator: T
    var constraintIndex: nat
    ghost var asserted: seq<T>

    /** The index counts what was asserted, and the accumulator is its fold. */
    ghost predicate Valid()
      reads this
    {
      && constraintIndex == |asserted| <= |powersOfAlpha|
      && accumulator == PowersFolded(R, R.zero, powersOfAlpha, asserted)
    }

    constructor (R: Ring<T>, powersOfAlpha: seq<T>)
      ensures Valid() && this.R == R && this.powersOfAlpha == powersOfAlpha && asserted == []
    {
      this.R, this.powersOfAlpha, accumulator, constraintIndex, asserted := R, powersOfAlpha, R.zero, 0, [];
    }

    /** Indexing past the table of powers panics. */
    method AssertZero(x: T)
      requires Valid() && constraintIndex < |powersOfAlpha|
      modifies this
      ensures Valid() && asserted == old(asserted) + [x]
    {
      PowersFoldedSnoc(R, R.zero, powersOfAlpha, asserted, x);
      accumulator := R.add(accumulator, R.mul(powersOfAlpha[constraintIndex], x));
      constraintIndex := constraintIndex + 1;
      asserted := asserted + [x];
    }

    method AssertAll(xs: seq<T>)
      requires Valid() && constraintIndex + |xs| <= |powersOfAlpha|
      modifies this
      ensures Valid() && asserted == old(asserted) + xs
    {
      for i := 0 to |xs|
        invariant Valid() && asserted == old(asserted) + xs[..i]
      {
        AssertZero(xs[i]);
      }
    }
  }

  // Horner's fold is an evaluation.

  function Reverse<T>(xs: seq<T>): (r: seq<T>)
    ensures |r| == |xs| && forall i :: 0 <= i < |xs| ==> r[i] == xs[|xs| - 1 - i]
  {
    if xs == [] then [] else Reverse(xs[1..]) + [xs[0]]
  }

  lemma {:induction false} EvalSnoc<T(!new)>(R: Ring<T>, p: seq<T>, a: T, b: T, x: T)
    requires CommRing(R)
    ensures Eval(R, p + [a, b], x) == Eval(R, p + [R.add(R.mul(b, x), a)], x)
  {
    if p == [] {
      assert Eval(R, [a, b], x) == R.add(a, R.mul(x, Eval(R, [a, b][1..], x)));
      assert [a, b][1..] == [b] && [b][1..] == [];
      MulZero(R, x);
      assert Laws(R, b, R.zero, R.zero) && Laws(R, b, x, x) && Laws(R, R.mul(b, x), a, a);
      var c := R.add(R.mul(b, x), a);
      assert [c][1..] == [];
      assert Laws(R, c, R.zero, R.zero);
      assert p + [a, b] == [a, b] && p + [c] == [c];
    } else {
      var c := R.add(R.mul(b, x), a);
      EvalSnoc(R, p[1..], a, b, x);
      assert (p + [a, b])[1..] == p[1..] + [a, b];
      assert (p + [c])[1..] == p[1..] + [c];
    }
  }

  lemma {:induction false} FoldedIsEval<T(!new)>(R: Ring<T>, acc: T, alpha: T, xs: seq<T>)
    requires CommRing(R)
    ensures Folded(R, acc, alpha, xs) == Eval(R, Reverse(xs) + [acc], alpha)
    decreases xs
  {
    if xs == [] {
      assert Reverse(xs) + [acc] == [acc];
      assert [acc][1..] == [];
      MulZero(R, alpha);
      assert Laws(R, acc, R.zero, R.zero);
    } else {
      var next := R.add(R.mul(acc, alpha), xs[0]);
      FoldedIsEval(R, next, alpha, xs[1..]);
      EvalSnoc(R, Reverse(xs[1..]), xs[0], acc, alpha);
      assert Reverse(xs) + [acc] == Reverse(xs[1..]) + [xs[0], acc];
    }
  }

  /** Folding from zero evaluates at the challenge the polynomial whose last coefficient is the first constraint. */
  lemma FoldIsEval<T(!new)>(R: Ring<T>, alpha: T, xs: seq<T>)
    requires CommRing(R)
    ensures Folded(R, R.zero, alpha, xs) == Eval(R, Reverse(xs), alpha)
  {
    FoldedIsEval(R, R.zero, alpha, xs);
    var p := Reverse(xs);
    forall k: nat
      ensures Co(R, p + [R.zero], k) == Co(R, p, k)
    {
    }
    EvalSame(R, p + [R.zero], p, alpha);
  }

  /** If some constraint is nonzero, fewer challenges than constraints fold the list to zero. */
  lemma FewBadChallenges<T(!new)>(F: Field<T>, xs: seq<T>, i: nat, bad: set<T>)
    requires IsField(F) && i < |xs| && xs[i] != F.R.zero
    requires forall alpha <- bad :: Folded(F.R, F.R.zero, alpha, xs) == F.R.zero
    ensures |bad| <= |xs| - 1
  {
    var p := Reverse(xs);
    assert p[|xs| - 1 - i] == xs[i];
    forall alpha | alpha in bad
      ensures Eval(F.R, p, alpha) == F.R.zero
    {
      FoldIsEval(F.R, alpha, xs);
    }
    FewRoots(F, p, bad);
  }

  // The two folds agree.

  /** Entry `i` of the table is the power with as many factors as constraints follow. */
  ghost predicate DescendingPowers<T>(R: Ring<T>, alpha: T, powers: seq<T>, n: nat) {
    |powers| >= n && forall i :: 0 <= i < n ==> powers[i] == Pow(R, alpha, n - 1 - i)
  }

  lemma {:induction false} FoldsAgreeFrom<T(!new)>(R: Ring<T>, acc: T, alpha: T, powers: seq<T>, xs: seq<T>)
    requires CommRing(R) && DescendingPowers(R, alpha, powers, |xs|)
    ensures Folded(R, acc, alpha, xs) == PowersFolded(R, R.mul(acc, Pow(R, alpha, |xs|)), powers, xs)
    decreases xs
  {
    var n := |xs|;
    PowStep(R, alpha, 0);
    if n == 0 {
      assert Laws(R, acc, R.one, R.one);
    } else {
      var top, next := Pow(R, alpha, n - 1), R.add(R.mul(acc, alpha), xs[0]);
      FoldsAgreeFrom(R, next, alpha, powers[1..], xs[1..]);
      PowStep(R, alpha, n - 1);
      MulAdd(R, R.mul(acc, alpha), xs[0], top);
      assert Laws(R, acc, alpha, top) && Laws(R, xs[0], top, top);
      assert powers[0] == top;
    }
  }

  /** The prover's fold with descending powers is the verifier's Horner fold. */
  lemma FoldsAgree<T(!new)>(R: Ring<T>, alpha: T, powers: seq<T>, xs: seq<T>)
    requires CommRing(R) && DescendingPowers(R, alpha, powers, |xs|)
    ensures PowersFolded(R, R.zero, powers, xs) == Folded(R, R.zero, alpha, xs)
  {
    FoldsAgreeFrom(R, R.zero, alpha, powers, xs);
    MulZero(R, Pow(R, alpha, |xs|));
  }

  /** Whatever is asserted, the prover's and the verifier's folders end with the same value. */
  method FoldBoth<T(!new)>(R: Ring<T>, alpha: T, powers: seq<T>, xs: seq<T>) returns (horner: T, table: T)
    requires CommRing(R) && DescendingPowers(R, alpha, powers, |xs|)
    ensures horner == table == Eval(R, Reverse(xs), alpha)
  {
    var verifier := new HornerFolder(R, alpha);
    verifier.AssertAll(xs);
    var prover := new PowersFolder(R, powers);
    prover.AssertAll(xs);
    FoldsAgree(R, alpha, powers, xs);
    FoldIsEval(R, alpha, xs);
    assert [] + xs == xs;
    horner, table := verifier.accumulator, prover.accumulator;
  }
}
