/** When the LogUp digest is zero: always for balanced operations, and for few challenges otherwise. */
module LogUpSoundness {
  import opened Modular
  import opened Algebra
  import opened FieldAlgebra
  import opened Polynomial
  import opened Groups
  import opened LogUp
  import opened Multilinear
  import P = PartialFractions

  // Messages as lists of a fixed length.

  /** A message's kind and values, filled up with zeros. */
  ghost function Padded<T>(R: Ring<T>, m: Interaction<T>, n: nat): (r: seq<T>)
    requires |m.values| < n
    ensures |r| == n
  {
    [m.kind] + m.values + seq(n - 1 - |m.values|, i => R.zero)
  }

  lemma {:induction false} WeighIsDot<T(!new)>(R: Ring<T>, acc: T, values: seq<T>, betas: seq<T>)
    requires CommRing(R) && |values| <= |betas|
    ensures Weigh(R, acc, values, betas) == R.add(acc, Dot(R, values, betas))
    decreases values
  {
    if values == [] {
      assert Laws(R, acc, R.zero, R.zero);
    } else {
      var first := R.mul(values[0], betas[0]);
      WeighIsDot(R, R.add(acc, first), values[1..], betas[1..]);
      assert Laws(R, acc, first, Dot(R, values[1..], betas[1..]));
    }
  }

  lemma {:induction false} DotPadded<T(!new)>(R: Ring<T>, c: seq<T>, zeros: seq<T>, w: seq<T>)
    requires CommRing(R) && Zeros(R, zeros) && |c| + |zeros| <= |w|
    ensures Dot(R, c + zeros, w) == Dot(R, c, w)
  {
    if c == [] {
      assert c + zeros == zeros;
      DotZeros(R, zeros, w);
    } else {
      assert (c + zeros)[1..] == c[1..] + zeros;
      DotPadded(R, c[1..], zeros, w[1..]);
    }
  }

  /** The denominator is the challenge plus the weighted sum of the message. */
  lemma DenominatorIsDot<T(!new)>(R: Ring<T>, c: Challenges<T>, m: Interaction<T>)
    requires CommRing(R) && Fits(c, m)
    ensures Denominator(R, c, m) == R.add(c.alpha, Dot(R, Padded(R, m, |c.betas|), c.betas))
  {
    var b, full := c.betas, [m.kind] + m.values;
    WeighIsDot(R, R.add(c.alpha, R.mul(b[0], m.kind)), m.values, b[1..]);
    assert full[1..] == m.values;
    var first, rest := R.mul(m.kind, b[0]), Dot(R, m.values, b[1..]);
    assert Dot(R, full, b) == R.add(first, rest);
    assert Laws(R, b[0], m.kind, m.kind) && Laws(R, c.alpha, first, rest);
    DotPadded(R, full, seq(|b| - 1 - |m.values|, i => R.zero), b);
  }

  // Operations as terms.

  ghost function SignedWeight<T>(R: Ring<T>, op: Op<T>): T {
    if op.sent then op.message.multiplicity else R.neg(op.message.multiplicity)
  }

  ghost predicate Short<T>(ops: seq<Op<T>>, n: nat) {
    forall i :: 0 <= i < |ops| ==> |ops[i].message.values| < n
  }

  ghost function MessageTerms<T>(R: Ring<T>, ops: seq<Op<T>>, n: nat): (r: seq<P.Term<seq<T>, T>>)
    requires Short(ops, n)
    ensures |r| == |ops|
  {
    seq(|ops|, i requires 0 <= i < |ops| => P.Term(Padded(R, ops[i].message, n), SignedWeight(R, ops[i])))
  }

  /** The total multiplicity sent of a message, less that received. */
  ghost function Net<T>(R: Ring<T>, ops: seq<Op<T>>, n: nat, message: seq<T>): T
    requires Short(ops, n)
  {
    P.Weight(R, MessageTerms(R, ops, n), message)
  }

  ghost function ShiftBy<T>(R: Ring<T>, betas: seq<T>): seq<T> -> T {
    key => if |key| <= |betas| then Dot(R, key, betas) else R.zero
  }

  lemma SignedIsFraction<T(!new)>(F: Field<T>, c: Challenges<T>, op: Op<T>)
    requires CommRing(F.R) && Fits(c, op.message)
    ensures Signed(F, c, op) ==
            P.Fraction(F, ShiftBy(F.R, c.betas), c.alpha,
              P.Term(Padded(F.R, op.message, |c.betas|), SignedWeight(F.R, op)))
  {
    DenominatorIsDot(F.R, c, op.message);
    NegLaws(F.R, op.message.multiplicity, F.inv(Denominator(F.R, c, op.message)));
  }

  lemma TermsTail<T>(F: Field<T>, c: Challenges<T>, ops: seq<Op<T>>)
    requires AllFit(c, ops) && ops != []
    ensures Contributions(F, c, ops)[1..] == Contributions(F, c, ops[1..])
    ensures MessageTerms(F.R, ops, |c.betas|)[1..] == MessageTerms(F.R, ops[1..], |c.betas|)
  {
  }

  lemma {:induction false} DigestIsSum<T(!new)>(F: Field<T>, c: Challenges<T>, ops: seq<Op<T>>)
    requires CommRing(F.R) && AllFit(c, ops)
    ensures Total(AdditiveGroup(F.R), Contributions(F, c, ops)) ==
            P.FractionSum(F, ShiftBy(F.R, c.betas), c.alpha, MessageTerms(F.R, ops, |c.betas|))
    decreases ops
  {
    if ops != [] {
      DigestIsSum(F, c, ops[1..]);
      SignedIsFraction(F, c, ops[0]);
      TermsTail(F, c, ops);
    }
  }

  /** If every message is received as often as it is sent, the digest is zero for all challenges. */
  lemma BalancedDigest<T(!new)>(F: Field<T>, c: Challenges<T>, ops: seq<Op<T>>)
    requires CommRing(F.R) && AllFit(c, ops)
    requires forall message :: Net(F.R, ops, |c.betas|, message) == F.R.zero
    ensures Total(AdditiveGroup(F.R), Contributions(F, c, ops)) == F.R.zero
  {
    DigestIsSum(F, c, ops);
    forall message
      ensures P.Weight(F.R, MessageTerms(F.R, ops, |c.betas|), message) == F.R.zero
    {
      assert Net(F.R, ops, |c.betas|, message) == F.R.zero;
    }
    P.WeightlessIsZero(F, ShiftBy(F.R, c.betas), c.alpha, MessageTerms(F.R, ops, |c.betas|));
  }

  // Few offsets, for given weights.

  ghost function ShiftTerms<T>(R: Ring<T>, shift: seq<T> -> T, ts: seq<P.Term<seq<T>, T>>): (r: seq<P.Term<T, T>>)
    ensures |r| == |ts|
  {
    seq(|ts|, i requires 0 <= i < |ts| => P.Term(shift(ts[i].key), ts[i].weight))
  }

  lemma {:induction false} ShiftedSum<T(!new)>(F: Field<T>, shift: seq<T> -> T, alpha: T, ts: seq<P.Term<seq<T>, T>>)
    ensures P.FractionSum(F, P.Self(), alpha, ShiftTerms(F.R, shift, ts)) == P.FractionSum(F, shift, alpha, ts)
  {
    if ts != [] {
      assert ShiftTerms(F.R, shift, ts)[1..] == ShiftTerms(F.R, shift, ts[1..]);
      ShiftedSum(F, shift, alpha, ts[1..]);
    }
  }

  /** The challenges are good for every operation and the digest is zero. */
  ghost predicate ZeroDigest<T>(F: Field<T>, c: Challenges<T>, ops: seq<Op<T>>) {
    && AllFit(c, ops)
    && (forall i :: 0 <= i < |ops| ==> Defined(F, c, ops[i].message))
    && Total(AdditiveGroup(F.R), Contributions(F, c, ops)) == F.R.zero
  }

  ghost predicate AllZero<T>(F: Field<T>, betas: seq<T>, ops: seq<Op<T>>, offsets: set<T>) {
    forall alpha <- offsets :: ZeroDigest(F, Challenges(alpha, betas), ops)
  }

  lemma DefinedNoPole<T(!new)>(F: Field<T>, c: Challenges<T>, ops: seq<Op<T>>)
    requires CommRing(F.R) && ZeroDigest(F, c, ops)
    ensures P.NoPole(F.R, ShiftTerms(F.R, ShiftBy(F.R, c.betas), MessageTerms(F.R, ops, |c.betas|)), c.alpha)
  {
    forall i | 0 <= i < |ops|
      ensures F.R.add(c.alpha, Dot(F.R, Padded(F.R, ops[i].message, |c.betas|), c.betas)) != F.R.zero
    {
      assert Defined(F, c, ops[i].message);
      DenominatorIsDot(F.R, c, ops[i].message);
    }
  }

  /** If some weighted sum carries a net multiplicity, the digest is zero for fewer offsets than operations. */
  lemma FewOffsets<T(!new)>(F: Field<T>, betas: seq<T>, ops: seq<Op<T>>, v: T, offsets: set<T>)
    requires IsField(F) && Short(ops, |betas|)
    requires P.Weight(F.R, ShiftTerms(F.R, ShiftBy(F.R, betas), MessageTerms(F.R, ops, |betas|)), v) != F.R.zero
    requires AllZero(F, betas, ops, offsets)
    ensures |offsets| < |ops|
  {
    var shift, ms := ShiftBy(F.R, betas), MessageTerms(F.R, ops, |betas|);
    var ts := ShiftTerms(F.R, shift, ms);
    forall alpha | alpha in offsets
      ensures P.NoPole(F.R, ts, alpha) && P.FractionSum(F, P.Self(), alpha, ts) == F.R.zero
    {
      var c := Challenges(alpha, betas);
      DefinedNoPole(F, c, ops);
      DigestIsSum(F, c, ops);
      ShiftedSum(F, shift, alpha, ms);
    }
    P.FewZeros(F, ts, v, offsets);
  }

  // Few seeds.

  /** Another message with the same weighted sum. */
  ghost predicate Collides<T>(R: Ring<T>, key: seq<T>, message: seq<T>, betas: seq<T>)
    requires |key| == |message| == |betas|
  {
    key != message && Dot(R, key, betas) == Dot(R, message, betas)
  }

  ghost predicate CollidesAt<T>(R: Ring<T>, ts: seq<P.Term<seq<T>, T>>, message: seq<T>, betas: seq<T>, i: nat) {
    i < |ts| && |ts[i].key| == |message| == |betas| && Collides(R, ts[i].key, message, betas)
  }

  ghost predicate Keyed<T>(ts: seq<P.Term<seq<T>, T>>, n: nat) {
    forall i :: 0 <= i < |ts| ==> |ts[i].key| == n
  }

  /** Without a collision the weighted sum of a message carries exactly the message's net multiplicity. */
  lemma {:induction false} ShiftedWeight<T(!new)>(R: Ring<T>, ts: seq<P.Term<seq<T>, T>>, message: seq<T>,
                                                  betas: seq<T>)
    requires CommRing(R) && |message| == |betas| && Keyed(ts, |betas|)
    requires forall i: nat :: !CollidesAt(R, ts, message, betas, i)
    ensures P.Weight(R, ShiftTerms(R, ShiftBy(R, betas), ts), Dot(R, message, betas)) == P.Weight(R, ts, message)
    decreases ts
  {
    if ts != [] {
      var shifted := ShiftTerms(R, ShiftBy(R, betas), ts);
      assert shifted[1..] == ShiftTerms(R, ShiftBy(R, betas), ts[1..]);
      assert !CollidesAt(R, ts, message, betas, 0);
      forall i: nat
        ensures !CollidesAt(R, ts[1..], message, betas, i)
      {
        assert !CollidesAt(R, ts, message, betas, i + 1);
      }
      ShiftedWeight(R, ts[1..], message, betas);
    }
  }

  /** Every seed makes some term collide with the message. */
  ghost predicate AllCollide<T>(R: Ring<T>, ts: seq<P.Term<seq<T>, T>>, message: seq<T>, seeds: set<seq<T>>) {
    forall seed <- seeds :: exists i: nat :: CollidesAt(R, ts, message, Lagrange(R, seed), i)
  }

  /** The seeds for which one other message collides. */
  lemma FewCollisions<T(!new)>(F: Field<T>, k: nat, key: seq<T>, message: seq<T>, s: set<T>, seeds: set<seq<T>>)
    requires IsField(F) && |key| == |message| == Pow2(k) && Over(s, k, seeds)
    requires forall seed <- seeds :: Collides(F.R, key, message, Lagrange(F.R, seed))
    ensures |seeds| <= Bound(k, |s|)
  {
    if seeds != {} {
      var d := Minus(F.R, key, message);
      var some :| some in seeds;
      assert Collides(F.R, key, message, Lagrange(F.R, some));
      if Zeros(F.R, d) {
        MinusZeros(F.R, key, message);
      }
      forall seed | seed in seeds
        ensures |seed| == k && Value(F.R, d, seed) == F.R.zero
      {
        var w := Lagrange(F.R, seed);
        assert Collides(F.R, key, message, w);
        DotMinus(F.R, key, message, w);
        SubLaws(F.R, Dot(F.R, key, w), Dot(F.R, key, w));
      }
      FewOrthogonal(F, d, k, s, seeds);
    }
  }

  lemma FewCollidingSeeds<T(!new)>(
      F: Field<T>, k: nat, ts: seq<P.Term<seq<T>, T>>, message: seq<T>, s: set<T>, seeds: set<seq<T>>)
    requires IsField(F) && |message| == Pow2(k) && Over(s, k, seeds) && AllCollide(F.R, ts, message, seeds)
    ensures |seeds| <= Copies(|ts|, Bound(k, |s|))
  {
    var hit := (i: nat, seed) => CollidesAt(F.R, ts, message, Lagrange(F.R, seed), i);
    forall i: nat, some: set<seq<T>> | i < |ts| && some <= seeds && HitAll(hit, i, some)
      ensures |some| <= Bound(k, |s|)
    {
      if seed :| seed in some {
        assert hit(i, seed);
        FewCollisions(F, k, ts[i].key, message, s, some);
      }
    }
    forall seed | seed in seeds
      ensures exists i: nat :: i < |ts| && hit(i, seed)
    {
      var i: nat :| CollidesAt(F.R, ts, message, Lagrange(F.R, seed), i);
      assert hit(i, seed);
    }
    UnionBound(hit, |ts|, seeds, Bound(k, |s|));
  }

  /** At least as many offsets as operations give a zero digest with the weights of the seed. */
  ghost predicate ManyZeros<T(!new)>(F: Field<T>, seed: seq<T>, ops: seq<Op<T>>) {
    exists offsets: set<T> :: AllZero(F, Lagrange(F.R, seed), ops, offsets) && |offsets| >= |ops|
  }

  lemma ManyZerosCollide<T(!new)>(F: Field<T>, ops: seq<Op<T>>, message: seq<T>, seed: seq<T>)
    requires IsField(F) && |message| == Pow2(|seed|) && Short(ops, Pow2(|seed|)) && ManyZeros(F, seed, ops)
    requires Net(F.R, ops, Pow2(|seed|), message) != F.R.zero
    ensures exists i: nat :: CollidesAt(F.R, MessageTerms(F.R, ops, Pow2(|seed|)), message, Lagrange(F.R, seed), i)
  {
    var betas, ts := Lagrange(F.R, seed), MessageTerms(F.R, ops, Pow2(|seed|));
    var offsets: set<T> :| AllZero(F, betas, ops, offsets) && |offsets| >= |ops|;
    if forall i: nat :: !CollidesAt(F.R, ts, message, betas, i) {
      ShiftedWeight(F.R, ts, message, betas);
      FewOffsets(F, betas, ops, Dot(F.R, message, betas), offsets);
    }
  }

  /**
   If some message is not received as often as it is sent, then among the n^k seeds over n field
   elements all but at most |ops| k n^(k - 1) give a zero digest for fewer offsets than operations.
   */
  lemma UnbalancedRarelyZero<T(!new)>(F: Field<T>, k: nat, ops: seq<Op<T>>, message: seq<T>, s: set<T>,
                                      seeds: set<seq<T>>)
    requires IsField(F) && |message| == Pow2(k) && Short(ops, Pow2(k)) && Over(s, k, seeds)
    requires Net(F.R, ops, Pow2(k), message) != F.R.zero
    requires forall seed <- seeds :: ManyZeros(F, seed, ops)
    ensures |seeds| <= |ops| * Bound(k, |s|)
  {
    var ts := MessageTerms(F.R, ops, Pow2(k));
    forall seed | seed in seeds
      ensures exists i: nat :: CollidesAt(F.R, ts, message, Lagrange(F.R, seed), i)
    {
      ManyZerosCollide(F, ops, message, seed);
    }
    FewCollidingSeeds(F, k, ts, message, s, seeds);
    CopiesProduct(|ops|, Bound(k, |s|));
  }
}
