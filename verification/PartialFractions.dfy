/** Sums of fractions `weight / (alpha + shift)`, merged by key and as quotients of polynomials in `alpha`. */
module PartialFractions {
  import opened Algebra
  import opened FieldAlgebra
  import opened Polynomial

  datatype Term<K, T> = Term(key: K, weight: T)

  ghost function Fraction<K, T>(F: Field<T>, shift: K -> T, alpha: T, t: Term<K, T>): T {
    Div(F, t.weight, F.R.add(alpha, shift(t.key)))
  }

  ghost function FractionSum<K, T>(F: Field<T>, shift: K -> T, alpha: T, ts: seq<Term<K, T>>): T {
    if ts == [] then F.R.zero
    else F.R.add(Fraction(F, shift, alpha, ts[0]), FractionSum(F, shift, alpha, ts[1..]))
  }

  /** The total weight of a key. */
  ghost function Weight<K, T>(R: Ring<T>, ts: seq<Term<K, T>>, key: K): T {
    if ts == [] then R.zero
    else R.add(if ts[0].key == key then ts[0].weight else R.zero, Weight(R, ts[1..], key))
  }

  ghost predicate HasKey<K, T>(ts: seq<Term<K, T>>, key: K) {
    exists i :: 0 <= i < |ts| && ts[i].key == key
  }

  lemma HasKeyTail<K, T>(ts: seq<Term<K, T>>, key: K)
    requires ts != []
    ensures HasKey(ts, key) <==> ts[0].key == key || HasKey(ts[1..], key)
  {
    if i :| 0 <= i < |ts| && ts[i].key == key {
      if i > 0 {
        assert ts[1..][i - 1].key == key;
      }
    }
    if i :| 0 <= i < |ts| - 1 && ts[1..][i].key == key {
      assert ts[i + 1].key == key;
    }
  }

  ghost predicate Distinct<K, T>(ts: seq<Term<K, T>>) {
    if ts == [] then true else !HasKey(ts[1..], ts[0].key) && Distinct(ts[1..])
  }

  // Merging.

  /** The terms with one more, its weight added to its key's if that is there. */
  ghost function Added<K, T>(R: Ring<T>, ts: seq<Term<K, T>>, t: Term<K, T>): (r: seq<Term<K, T>>)
    ensures r != [] && |r| <= |ts| + 1
  {
    if ts == [] then [t]
    else if ts[0].key == t.key then [Term(t.key, R.add(t.weight, ts[0].weight))] + ts[1..]
    else [ts[0]] + Added(R, ts[1..], t)
  }

  lemma {:induction false} AddedKeys<K, T>(R: Ring<T>, ts: seq<Term<K, T>>, t: Term<K, T>, key: K)
    ensures HasKey(Added(R, ts, t), key) <==> HasKey(ts, key) || key == t.key
  {
    var r := Added(R, ts, t);
    HasKeyTail(r, key);
    if ts != [] {
      HasKeyTail(ts, key);
      if ts[0].key != t.key {
        assert r[1..] == Added(R, ts[1..], t);
        AddedKeys(R, ts[1..], t, key);
      } else {
        assert r[1..] == ts[1..];
      }
    } else {
      assert r[1..] == [];
    }
  }

  lemma {:induction false} AddedDistinct<K, T>(R: Ring<T>, ts: seq<Term<K, T>>, t: Term<K, T>)
    requires Distinct(ts)
    ensures Distinct(Added(R, ts, t))
  {
    var r := Added(R, ts, t);
    if ts != [] && ts[0].key != t.key {
      assert r[1..] == Added(R, ts[1..], t);
      AddedDistinct(R, ts[1..], t);
      AddedKeys(R, ts[1..], t, ts[0].key);
    } else if ts != [] {
      assert r[1..] == ts[1..];
    } else {
      assert r[1..] == [];
    }
  }

  lemma {:induction false} AddedSum<K, T(!new)>(F: Field<T>, shift: K -> T, alpha: T, ts: seq<Term<K, T>>,
                                                t: Term<K, T>)
    requires CommRing(F.R)
    ensures FractionSum(F, shift, alpha, Added(F.R, ts, t)) ==
            F.R.add(Fraction(F, shift, alpha, t), FractionSum(F, shift, alpha, ts))
  {
    var R, r := F.R, Added(F.R, ts, t);
    var f := Fraction(F, shift, alpha, t);
    if ts == [] {
      assert r[1..] == [];
    } else {
      var g, rest := Fraction(F, shift, alpha, ts[0]), FractionSum(F, shift, alpha, ts[1..]);
      if ts[0].key == t.key {
        assert r[1..] == ts[1..];
        MulAdd(R, t.weight, ts[0].weight, F.inv(R.add(alpha, shift(t.key))));
        assert Laws(R, f, g, rest);
      } else {
        assert r[1..] == Added(R, ts[1..], t);
        AddedSum(F, shift, alpha, ts[1..], t);
        AddExchange(R, f, g, rest);
      }
    }
  }

  lemma AddExchange<T(!new)>(R: Ring<T>, f: T, g: T, rest: T)
    requires CommRing(R)
    ensures R.add(g, R.add(f, rest)) == R.add(f, R.add(g, rest))
  {
    assert Laws(R, g, f, rest) && Laws(R, f, g, rest);
  }

  lemma {:induction false} AddedWeight<K, T(!new)>(R: Ring<T>, ts: seq<Term<K, T>>, t: Term<K, T>, key: K)
    requires CommRing(R)
    ensures Weight(R, Added(R, ts, t), key) == R.add(if t.key == key then t.weight else R.zero, Weight(R, ts, key))
  {
    var r := Added(R, ts, t);
    if ts == [] {
      assert r[1..] == [];
    } else {
      var w := if t.key == key then t.weight else R.zero;
      var u, rest := if ts[0].key == key then ts[0].weight else R.zero, Weight(R, ts[1..], key);
      if ts[0].key == t.key {
        assert r[1..] == ts[1..];
        assert Laws(R, w, u, rest);
        assert Laws(R, R.zero, R.zero, R.zero);
      } else {
        assert r[1..] == Added(R, ts[1..], t);
        AddedWeight(R, ts[1..], t, key);
        AddExchange(R, w, u, rest);
      }
    }
  }

  /** One term per key. */
  ghost function Merged<K, T>(R: Ring<T>, ts: seq<Term<K, T>>): (r: seq<Term<K, T>>)
    ensures |r| <= |ts|
  {
    if ts == [] then [] else Added(R, Merged(R, ts[1..]), ts[0])
  }

  lemma {:induction false} MergedDistinct<K, T>(R: Ring<T>, ts: seq<Term<K, T>>)
    ensures Distinct(Merged(R, ts))
  {
    if ts != [] {
      MergedDistinct(R, ts[1..]);
      AddedDistinct(R, Merged(R, ts[1..]), ts[0]);
    }
  }

  lemma {:induction false} MergedSum<K, T(!new)>(F: Field<T>, shift: K -> T, alpha: T, ts: seq<Term<K, T>>)
    requires CommRing(F.R)
    ensures FractionSum(F, shift, alpha, Merged(F.R, ts)) == FractionSum(F, shift, alpha, ts)
  {
    if ts != [] {
      MergedSum(F, shift, alpha, ts[1..]);
      AddedSum(F, shift, alpha, Merged(F.R, ts[1..]), ts[0]);
    }
  }

  lemma {:induction false} MergedWeight<K, T(!new)>(R: Ring<T>, ts: seq<Term<K, T>>, key: K)
    requires CommRing(R)
    ensures Weight(R, Merged(R, ts), key) == Weight(R, ts, key)
    ensures HasKey(Merged(R, ts), key) <==> HasKey(ts, key)
  {
    if ts != [] {
      MergedWeight(R, ts[1..], key);
      AddedWeight(R, Merged(R, ts[1..]), ts[0], key);
      AddedKeys(R, Merged(R, ts[1..]), ts[0], key);
      HasKeyTail(ts, key);
    }
  }

  lemma {:induction false} NoKeyNoWeight<K, T(!new)>(R: Ring<T>, ts: seq<Term<K, T>>, key: K)
    requires CommRing(R) && !HasKey(ts, key)
    ensures Weight(R, ts, key) == R.zero
  {
    if ts != [] {
      HasKeyTail(ts, key);
      NoKeyNoWeight(R, ts[1..], key);
      assert Laws(R, R.zero, R.zero, R.zero);
    }
  }

  /** With one term per key, a term's weight is its key's. */
  lemma {:induction false} DistinctWeight<K, T(!new)>(R: Ring<T>, ts: seq<Term<K, T>>, i: nat)
    requires CommRing(R) && Distinct(ts) && i < |ts|
    ensures Weight(R, ts, ts[i].key) == ts[i].weight
  {
    if i == 0 {
      NoKeyNoWeight(R, ts[1..], ts[0].key);
      assert Laws(R, ts[0].weight, R.zero, R.zero);
    } else {
      assert ts[1..][i - 1] == ts[i];
      DistinctWeight(R, ts[1..], i - 1);
      assert HasKey(ts[1..], ts[i].key);
      assert Laws(R, R.zero, ts[i].weight, R.zero) && Laws(R, ts[i].weight, R.zero, R.zero);
    }
  }

  /** If every key's weight is zero, so is the sum, whatever the shifts. */
  lemma WeightlessIsZero<K(!new), T(!new)>(F: Field<T>, shift: K -> T, alpha: T, ts: seq<Term<K, T>>)
    requires CommRing(F.R) && forall key :: Weight(F.R, ts, key) == F.R.zero
    ensures FractionSum(F, shift, alpha, ts) == F.R.zero
  {
    var ms := Merged(F.R, ts);
    MergedSum(F, shift, alpha, ts);
    MergedDistinct(F.R, ts);
    forall i | 0 <= i < |ms|
      ensures ms[i].weight == F.R.zero
    {
      DistinctWeight(F.R, ms, i);
      MergedWeight(F.R, ts, ms[i].key);
    }
    ZeroWeights(F, shift, alpha, ms);
  }

  lemma {:induction false} ZeroWeights<K, T(!new)>(F: Field<T>, shift: K -> T, alpha: T, ts: seq<Term<K, T>>)
    requires CommRing(F.R) && forall i :: 0 <= i < |ts| ==> ts[i].weight == F.R.zero
    ensures FractionSum(F, shift, alpha, ts) == F.R.zero
  {
    if ts != [] {
      ZeroWeights(F, shift, alpha, ts[1..]);
      MulZero(F.R, F.inv(F.R.add(alpha, shift(ts[0].key))));
      assert Laws(F.R, F.R.zero, F.R.zero, F.R.zero);
    }
  }

  // The sum as a quotient, for terms that are keyed by their shifts.

  /** The polynomial `(X + c) q`. */
  ghost function Linear<T>(R: Ring<T>, c: T, q: seq<T>): (r: seq<T>)
    ensures |r| == |q| + 1
  {
    AddPoly(R, [R.zero] + q, ScalePoly(R, c, q))
  }

  lemma EvalLinear<T(!new)>(R: Ring<T>, c: T, q: seq<T>, x: T)
    requires CommRing(R)
    ensures Eval(R, Linear(R, c, q), x) == R.mul(R.add(x, c), Eval(R, q, x))
  {
    var e := Eval(R, q, x);
    EvalAdd(R, [R.zero] + q, ScalePoly(R, c, q), x);
    EvalScale(R, c, q, x);
    assert ([R.zero] + q)[1..] == q;
    assert Laws(R, R.zero, R.mul(x, e), R.zero) && Laws(R, R.mul(x, e), R.zero, R.zero);
    MulAdd(R, x, c, e);
  }

  ghost function Bottom<T>(R: Ring<T>, ts: seq<Term<T, T>>): (r: seq<T>)
    ensures |r| == |ts| + 1
  {
    if ts == [] then [R.one] else Linear(R, ts[0].key, Bottom(R, ts[1..]))
  }

  ghost function Top<T>(R: Ring<T>, ts: seq<Term<T, T>>): (r: seq<T>)
    ensures |r| == |ts|
  {
    if ts == [] then []
    else AddPoly(R, ScalePoly(R, ts[0].weight, Bottom(R, ts[1..])), Linear(R, ts[0].key, Top(R, ts[1..])))
  }

  lemma EvalTop<T(!new)>(R: Ring<T>, ts: seq<Term<T, T>>, x: T)
    requires CommRing(R) && ts != []
    ensures Eval(R, Top(R, ts), x) ==
            R.add(R.mul(ts[0].weight, Eval(R, Bottom(R, ts[1..]), x)),
                  R.mul(R.add(x, ts[0].key), Eval(R, Top(R, ts[1..]), x)))
  {
    EvalAdd(R, ScalePoly(R, ts[0].weight, Bottom(R, ts[1..])), Linear(R, ts[0].key, Top(R, ts[1..])), x);
    EvalScale(R, ts[0].weight, Bottom(R, ts[1..]), x);
    EvalLinear(R, ts[0].key, Top(R, ts[1..]), x);
  }

  /** No denominator vanishes at `x`. */
  ghost predicate NoPole<T>(R: Ring<T>, ts: seq<Term<T, T>>, x: T) {
    forall i :: 0 <= i < |ts| ==> R.add(x, ts[i].key) != R.zero
  }

  lemma {:induction false} BottomRoots<T(!new)>(F: Field<T>, ts: seq<Term<T, T>>, x: T)
    requires IsField(F)
    ensures Eval(F.R, Bottom(F.R, ts), x) != F.R.zero <==> NoPole(F.R, ts, x)
  {
    var R := F.R;
    if ts == [] {
      assert [R.one][1..] == [];
      MulZero(R, x);
      assert Laws(R, R.one, R.zero, R.zero);
    } else {
      var b, l := Eval(R, Bottom(R, ts[1..]), x), R.add(x, ts[0].key);
      BottomRoots(F, ts[1..], x);
      EvalLinear(R, ts[0].key, Bottom(R, ts[1..]), x);
      MulZero(R, b);
      MulZero(R, l);
      if l != R.zero && R.mul(l, b) == R.zero {
        ZeroProduct(F, b, l);
      }
      assert NoPole(R, ts, x) <==> l != R.zero && NoPole(R, ts[1..], x) by {
        assert forall i :: 0 <= i < |ts| - 1 ==> ts[1..][i] == ts[i + 1];
      }
    }
  }

  function Self<T>(): T -> T {
    x => x
  }

  /** Away from the poles the top is the sum times the bottom. */
  lemma {:induction false} TopIsSum<T(!new)>(F: Field<T>, ts: seq<Term<T, T>>, x: T)
    requires IsField(F) && NoPole(F.R, ts, x)
    ensures Eval(F.R, Top(F.R, ts), x) ==
            F.R.mul(FractionSum(F, Self(), x, ts), Eval(F.R, Bottom(F.R, ts), x))
  {
    var R := F.R;
    if ts == [] {
      MulZero(R, Eval(R, Bottom(R, ts), x));
    } else {
      var b, l := Eval(R, Bottom(R, ts[1..]), x), R.add(x, ts[0].key);
      var f, s := Fraction(F, Self(), x, ts[0]), FractionSum(F, Self(), x, ts[1..]);
      TopIsSum(F, ts[1..], x);
      EvalTop(R, ts, x);
      EvalLinear(R, ts[0].key, Bottom(R, ts[1..]), x);
      DivMul(F, ts[0].weight, l);
      assert R.mul(f, l) == ts[0].weight;
      assert Laws(R, f, l, b);
      assert Laws(R, s, l, b) && Laws(R, l, s, b);
      MulAdd(R, f, s, R.mul(l, b));
    }
  }

  lemma NegOfSum<T(!new)>(R: Ring<T>, a: T, b: T)
    requires CommRing(R)
    ensures R.add(R.neg(a), b) == R.zero <==> a == b
  {
    assert Laws(R, R.neg(a), a, a) && Laws(R, a, R.neg(a), a);
    if R.add(R.neg(a), b) == R.zero {
      AddCancel(R, R.neg(a), b, a);
    }
  }

  /** At the pole of a term with a weight, the top does not vanish. */
  lemma {:induction false} TopAtPole<T(!new)>(F: Field<T>, ts: seq<Term<T, T>>, i: nat)
    requires IsField(F) && Distinct(ts) && i < |ts| && ts[i].weight != F.R.zero
    ensures Eval(F.R, Top(F.R, ts), F.R.neg(ts[i].key)) != F.R.zero
  {
    var R, x := F.R, F.R.neg(ts[i].key);
    var b, l, t := Eval(R, Bottom(R, ts[1..]), x), R.add(x, ts[0].key), Eval(R, Top(R, ts[1..]), x);
    EvalTop(R, ts, x);
    NegOfSum(R, ts[i].key, ts[0].key);
    BottomRoots(F, ts[1..], x);
    if i == 0 {
      PoleFree(R, ts[1..], ts[0].key);
      MulZero(R, t);
      assert Laws(R, R.mul(ts[0].weight, b), R.zero, R.zero);
      if R.mul(ts[0].weight, b) == R.zero {
        ZeroProduct(F, b, ts[0].weight);
      }
    } else {
      assert ts[1..][i - 1] == ts[i];
      TopAtPole(F, ts[1..], i - 1);
      assert HasKey(ts[1..], ts[i].key);
      NegOfSum(R, ts[i].key, ts[1..][i - 1].key);
      MulZero(R, ts[0].weight);
      assert Laws(R, R.zero, R.mul(l, t), R.zero) && Laws(R, R.mul(l, t), R.zero, R.zero);
      if R.mul(l, t) == R.zero {
        ZeroProduct(F, t, l);
      }
    }
  }

  lemma PoleFree<T(!new)>(R: Ring<T>, ts: seq<Term<T, T>>, key: T)
    requires CommRing(R) && !HasKey(ts, key)
    ensures NoPole(R, ts, R.neg(key))
  {
    forall i | 0 <= i < |ts|
      ensures R.add(R.neg(key), ts[i].key) != R.zero
    {
      NegOfSum(R, key, ts[i].key);
    }
  }

  /** If some key has a weight, the sum vanishes at fewer points than there are terms. */
  lemma FewZeros<T(!new)>(F: Field<T>, ts: seq<Term<T, T>>, key: T, zeros: set<T>)
    requires IsField(F) && Weight(F.R, ts, key) != F.R.zero
    requires forall x <- zeros :: NoPole(F.R, ts, x) && FractionSum(F, Self(), x, ts) == F.R.zero
    ensures |zeros| < |ts|
  {
    var R, ms := F.R, Merged(F.R, ts);
    MergedWeight(R, ts, key);
    MergedDistinct(R, ts);
    if !HasKey(ms, key) {
      NoKeyNoWeight(R, ms, key);
    }
    var i: nat :| i < |ms| && ms[i].key == key;
    DistinctWeight(R, ms, i);
    TopAtPole(F, ms, i);
    if Zeros(R, Top(R, ms)) {
      EvalZeros(R, Top(R, ms), R.neg(key));
    }
    forall x | x in zeros
      ensures Eval(R, Top(R, ms), x) == R.zero
    {
      MergedNoPole(R, ts, x);
      MergedSum(F, Self(), x, ts);
      TopIsSum(F, ms, x);
      MulZero(R, Eval(R, Bottom(R, ms), x));
    }
    FewRoots(F, Top(R, ms), zeros);
  }

  lemma MergedNoPole<T(!new)>(R: Ring<T>, ts: seq<Term<T, T>>, x: T)
    requires CommRing(R) && NoPole(R, ts, x)
    ensures NoPole(R, Merged(R, ts), x)
  {
    var ms := Merged(R, ts);
    forall i | 0 <= i < |ms|
      ensures R.add(x, ms[i].key) != R.zero
    {
      MergedWeight(R, ts, ms[i].key);
      var j :| 0 <= j < |ts| && ts[j].key == ms[i].key;
    }
  }
}
