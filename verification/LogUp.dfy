/** The LogUp digest of sends and receives, and the log of the debug folder. */
module LogUp {
  import opened Algebra
  import opened FieldAlgebra
  import opened Groups

  datatype Interaction<T> = Interaction(kind: T, values: seq<T>, multiplicity: T)

  datatype Scope = Global | Local

  /** What the debug folder keeps of an operation. */
  datatype Entry<T> = Entry(scope: Scope, message: Interaction<T>)

  /** The random challenges: an offset and one weight per component. */
  datatype Challenges<T> = Challenges(alpha: T, betas: seq<T>)

  /** `alpha + beta_0 kind + beta_1 value_1 + ...`, from left to right. */
  function Weigh<T>(R: Ring<T>, acc: T, values: seq<T>, betas: seq<T>): T
    requires |values| <= |betas|
    decreases values
  {
    if values == [] then acc else Weigh(R, R.add(acc, R.mul(values[0], betas[0])), values[1..], betas[1..])
  }

  predicate Fits<T>(c: Challenges<T>, m: Interaction<T>) {
    |m.values| < |c.betas|
  }

  function Denominator<T>(R: Ring<T>, c: Challenges<T>, m: Interaction<T>): T
    requires Fits(c, m)
  {
    Weigh(R, R.add(c.alpha, R.mul(c.betas[0], m.kind)), m.values, c.betas[1..])
  }

  /** What a message contributes; the source panics when there are too few weights or the denominator is zero. */
  function Fraction<T>(F: Field<T>, c: Challenges<T>, m: Interaction<T>): T
    requires Fits(c, m)
  {
    Div(F, m.multiplicity, Denominator(F.R, c, m))
  }

  predicate Defined<T(==)>(F: Field<T>, c: Challenges<T>, m: Interaction<T>) {
    Fits(c, m) && Denominator(F.R, c, m) != F.R.zero
  }

  datatype Op<T> = Op(sent: bool, message: Interaction<T>)

  ghost function Signed<T>(F: Field<T>, c: Challenges<T>, op: Op<T>): T
    requires Fits(c, op.message)
  {
    if op.sent then Fraction(F, c, op.message) else F.R.neg(Fraction(F, c, op.message))
  }

  /** The folder over the public values: a running sum of signed fractions, whatever their scopes. */
  class DigestFolder<T(==)> {
    const F: Field<T>
    const challenges: Challenges<T>
    var digest: T

    constructor (F: Field<T>, challenges: Challenges<T>)
      ensures this.F == F && this.challenges == challenges && digest == F.R.zero
    {
      this.F, this.challenges, digest := F, challenges, F.R.zero;
    }

    /** The denominator's loop over the message's components. */
    method WeighMessage(m: Interaction<T>) returns (denominator: T)
      requires Fits(challenges, m)
      ensures denominator == Denominator(F.R, challenges, m)
    {
      var betas := challenges.betas;
      denominator := F.R.add(challenges.alpha, F.R.mul(betas[0], m.kind));
      for i := 0 to |m.values|
        invariant Weigh(F.R, denominator, m.values[i..], betas[i + 1..]) == Denominator(F.R, challenges, m)
      {
        assert m.values[i..][1..] == m.values[i + 1..] && betas[i + 1..][1..] == betas[i + 2..];
        denominator := F.R.add(denominator, F.R.mul(m.values[i], betas[i + 1]));
      }
    }

    method Send(m: Interaction<T>, scope: Scope)
      requires Defined(F, challenges, m)
      modifies this
      ensures digest == F.R.add(old(digest), Div(F, m.multiplicity, Denominator(F.R, challenges, m)))
    {
      var denominator := WeighMessage(m);
      digest := F.R.add(digest, Div(F, m.multiplicity, denominator));
    }

    method Receive(m: Interaction<T>, scope: Scope)
      requires Defined(F, challenges, m)
      modifies this
      ensures digest == Sub(F.R, old(digest), Div(F, m.multiplicity, Denominator(F.R, challenges, m)))
    {
      var denominator := WeighMessage(m);
      digest := Sub(F.R, digest, Div(F, m.multiplicity, denominator));
    }
  }

  /** The debug folder: it keeps what was sent and received, receives with negated multiplicity. */
  class LogFolder<T> {
    const R: Ring<T>
    var interactions: seq<Entry<T>>

    constructor (R: Ring<T>)
      ensures this.R == R && interactions == []
    {
      this.R, interactions := R, [];
    }

    method Send(m: Interaction<T>, scope: Scope)
      modifies this
      ensures interactions == old(interactions) + [Entry(scope, Logged(R, Op(true, m)))]
    {
      interactions := interactions + [Entry(scope, m)];
    }

    method Receive(m: Interaction<T>, scope: Scope)
      modifies this
      ensures interactions == old(interactions) + [Entry(scope, Logged(R, Op(false, m)))]
    {
      interactions := interactions + [Entry(scope, m.(multiplicity := R.neg(m.multiplicity)))];
    }
  }

  function Logged<T>(R: Ring<T>, op: Op<T>): Interaction<T> {
    if op.sent then op.message else op.message.(multiplicity := R.neg(op.message.multiplicity))
  }

  /** Runs the digest folder over a list of operations: the signed fractions add up. */
  method RunDigest<T(==, !new)>(F: Field<T>, c: Challenges<T>, ops: seq<Op<T>>, scopes: seq<Scope>) returns (digest: T)
    requires |scopes| == |ops| && IsField(F) && AllFit(c, ops)
    requires forall i :: 0 <= i < |ops| ==> Defined(F, c, ops[i].message)
    ensures digest == Total(AdditiveGroup(F.R), Contributions(F, c, ops))
  {
    var fold := new DigestFolder<T>(F, c);
    for i := 0 to |ops|
      invariant fold.F == F && fold.challenges == c
      invariant fold.digest == Total(AdditiveGroup(F.R), Contributions(F, c, ops[..i]))
    {
      RunStep(F, c, ops, i);
      if ops[i].sent {
        fold.Send(ops[i].message, scopes[i]);
      } else {
        fold.Receive(ops[i].message, scopes[i]);
      }
    }
    assert ops[..|ops|] == ops;
    digest := fold.digest;
  }

  lemma RunStep<T(!new)>(F: Field<T>, c: Challenges<T>, ops: seq<Op<T>>, i: nat)
    requires IsField(F) && AllFit(c, ops) && i < |ops|
    ensures Total(AdditiveGroup(F.R), Contributions(F, c, ops[..i + 1])) ==
            F.R.add(Total(AdditiveGroup(F.R), Contributions(F, c, ops[..i])), Signed(F, c, ops[i]))
  {
    AdditiveIsGroup(F.R);
    ContributionsSnoc(F, c, ops, i);
    TotalSnoc(AdditiveGroup(F.R), Contributions(F, c, ops[..i]), Signed(F, c, ops[i]));
  }

  /** The log has an entry per operation, with its scope and its signed multiplicity. */
  ghost predicate IsLog<T>(R: Ring<T>, ops: seq<Op<T>>, scopes: seq<Scope>, log: seq<Entry<T>>) {
    && |log| == |ops| == |scopes|
    && forall i :: 0 <= i < |ops| ==> log[i] == Entry(scopes[i], Logged(R, ops[i]))
  }

  /** Runs the debug folder over a list of operations. */
  method RunLog<T>(R: Ring<T>, ops: seq<Op<T>>, scopes: seq<Scope>) returns (log: seq<Entry<T>>)
    requires |scopes| == |ops|
    ensures IsLog(R, ops, scopes, log)
  {
    var debug := new LogFolder<T>(R);
    for i := 0 to |ops|
      invariant debug.R == R && IsLog(R, ops[..i], scopes[..i], debug.interactions)
    {
      if ops[i].sent {
        debug.Send(ops[i].message, scopes[i]);
      } else {
        debug.Receive(ops[i].message, scopes[i]);
      }
    }
    assert ops[..|ops|] == ops && scopes[..|ops|] == scopes;
    log := debug.interactions;
  }

  // Sums of contributions.

  ghost function AdditiveGroup<T>(R: Ring<T>): Group<T> {
    Group(x => true, R.zero, R.add, R.neg)
  }

  lemma AdditiveIsGroup<T(!new)>(R: Ring<T>)
    requires CommRing(R)
    ensures IsGroup(AdditiveGroup(R))
  {
    forall x, y, z
      ensures GroupLaws(AdditiveGroup(R), x, y, z)
    {
      assert Laws(R, x, y, z);
    }
  }

  ghost predicate AllFit<T>(c: Challenges<T>, ops: seq<Op<T>>) {
    forall i :: 0 <= i < |ops| ==> Fits(c, ops[i].message)
  }

  ghost function Contributions<T>(F: Field<T>, c: Challenges<T>, ops: seq<Op<T>>): seq<T>
    requires AllFit(c, ops)
  {
    seq(|ops|, i requires 0 <= i < |ops| => Signed(F, c, ops[i]))
  }

  ghost function Fractions<T>(F: Field<T>, c: Challenges<T>, log: seq<Entry<T>>): seq<T>
    requires forall i :: 0 <= i < |log| ==> Fits(c, log[i].message)
  {
    seq(|log|, i requires 0 <= i < |log| => Fraction(F, c, log[i].message))
  }

  lemma ContributionsSnoc<T>(F: Field<T>, c: Challenges<T>, ops: seq<Op<T>>, i: nat)
    requires AllFit(c, ops) && i < |ops|
    ensures Contributions(F, c, ops[..i + 1]) == Contributions(F, c, ops[..i]) + [Signed(F, c, ops[i])]
  {
  }

  // The log.

  /** A receive is logged so that its fraction has the sign it has in the digest. */
  lemma LoggedFraction<T(!new)>(F: Field<T>, c: Challenges<T>, op: Op<T>)
    requires CommRing(F.R) && Fits(c, op.message)
    ensures Fits(c, Logged(F.R, op)) && Fraction(F, c, Logged(F.R, op)) == Signed(F, c, op)
  {
    NegLaws(F.R, op.message.multiplicity, F.inv(Denominator(F.R, c, op.message)));
  }

  /** The fractions of the debug log are the contributions to the digest, so both folders have the same sum. */
  lemma LogAgrees<T(!new)>(F: Field<T>, c: Challenges<T>, ops: seq<Op<T>>, scopes: seq<Scope>, log: seq<Entry<T>>)
    requires CommRing(F.R) && AllFit(c, ops) && IsLog(F.R, ops, scopes, log)
    ensures forall i :: 0 <= i < |log| ==> Fits(c, log[i].message)
    ensures Fractions(F, c, log) == Contributions(F, c, ops)
  {
    forall i | 0 <= i < |log|
      ensures Fits(c, log[i].message) && Fraction(F, c, log[i].message) == Signed(F, c, ops[i])
    {
      LoggedFraction(F, c, ops[i]);
    }
  }

  /** The operations that undo a list: everything sent is received and conversely. */
  ghost function Opposite<T>(ops: seq<Op<T>>): seq<Op<T>> {
    seq(|ops|, i requires 0 <= i < |ops| => Op(!ops[i].sent, ops[i].message))
  }

  lemma OppositeContributions<T(!new)>(F: Field<T>, c: Challenges<T>, half: seq<Op<T>>, i: nat)
    requires CommRing(F.R) && AllFit(c, half) && i < |half|
    ensures Signed(F, c, Opposite(half)[i]) == F.R.neg(Signed(F, c, half[i]))
  {
    NegLaws(F.R, Fraction(F, c, half[i].message), F.R.zero);
  }

  lemma ContributionsConcat<T>(F: Field<T>, c: Challenges<T>, xs: seq<Op<T>>, ys: seq<Op<T>>)
    requires AllFit(c, xs) && AllFit(c, ys)
    ensures AllFit(c, xs + ys) && Contributions(F, c, xs + ys) == Contributions(F, c, xs) + Contributions(F, c, ys)
  {
  }

  lemma OppositeCancels<T(!new)>(F: Field<T>, c: Challenges<T>, half: seq<Op<T>>)
    requires IsField(F) && AllFit(c, half)
    ensures AllFit(c, half + Opposite(half))
    ensures Total(AdditiveGroup(F.R), Contributions(F, c, half + Opposite(half))) == F.R.zero
  {
    var G := AdditiveGroup(F.R);
    AdditiveIsGroup(F.R);
    ContributionsConcat(F, c, half, Opposite(half));
    var s, t := Contributions(F, c, half), Contributions(F, c, Opposite(half));
    forall i | 0 <= i < |s|
      ensures t[i] == G.inv(s[i])
    {
      OppositeContributions(F, c, half, i);
    }
    TotalCancels(G, s, t);
    TotalConcat(G, s, t);
  }

  lemma ContributionsPermute<T(!new)>(F: Field<T>, c: Challenges<T>, xs: seq<Op<T>>, ys: seq<Op<T>>)
    requires AllFit(c, xs) && AllFit(c, ys) && multiset(xs) == multiset(ys)
    ensures multiset(Contributions(F, c, xs)) == multiset(Contributions(F, c, ys))
  {
    var signed := (op: Op<T>) requires Fits(c, op.message) => Signed(F, c, op);
    assert Contributions(F, c, xs) == Mapped(signed, xs);
    assert Contributions(F, c, ys) == Mapped(signed, ys);
    MappedPermutes(signed, xs, ys);
  }

  /** In any order, sends and receives of the same messages leave the digest at zero. */
  lemma BalancedIsZero<T(!new)>(F: Field<T>, c: Challenges<T>, half: seq<Op<T>>, ops: seq<Op<T>>)
    requires IsField(F) && AllFit(c, half) && AllFit(c, ops)
    requires multiset(ops) == multiset(half + Opposite(half))
    ensures Total(AdditiveGroup(F.R), Contributions(F, c, ops)) == F.R.zero
  {
    AdditiveIsGroup(F.R);
    OppositeCancels(F, c, half);
    ContributionsPermute(F, c, ops, half + Opposite(half));
    TotalPermutes(AdditiveGroup(F.R), Contributions(F, c, ops), Contributions(F, c, half + Opposite(half)));
  }
}
