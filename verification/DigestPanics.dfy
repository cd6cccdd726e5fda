/** Exactly when the digest sums panic, as conditions on partial sums in the curve's group. */
module DigestPanics {
  import opened Wrappers
  import opened Curve
  import opened Groups
  import opened Digest

  /** The element reached from `g` after the first `i` digests. */
  ghost function Partial<T>(K: Setting<T>, G: Group<Complete<T>>, g: Complete<T>, ds: seq<Point<T>>,
                            i: nat): Complete<T>
    requires i <= |ds|
  {
    G.op(g, Total(G, Values(K, G, ds[..i])))
  }

  lemma PartialStart<T(!new)>(K: Setting<T>, G: Group<Complete<T>>, g: Complete<T>, ds: seq<Point<T>>)
    requires Fits(K, G) && G.member(g)
    ensures Partial(K, G, g, ds, 0) == g
  {
    assert Values(K, G, ds[..0]) == [];
    assert GroupLaws(G, g, G.unit, G.unit);
  }

  lemma PartialNext<T(!new)>(K: Setting<T>, G: Group<Complete<T>>, g: Complete<T>, ds: seq<Point<T>>, i: nat)
    requires Fits(K, G) && G.member(g) && AllOn(G, ds) && i < |ds|
    ensures Partial(K, G, g, ds, i + 1) == Partial(K, G, G.op(g, Value(K, G, ds[0])), ds[1..], i)
  {
    var vs := Values(K, G, ds[..i + 1]);
    assert ds[..i + 1][1..] == ds[1..][..i];
    assert vs[1..] == Values(K, G, ds[1..][..i]);
    ValueMember(K, G, ds[0]);
    ValuesMembers(K, G, ds[1..][..i]);
    TotalMember(G, vs[1..]);
    assert GroupLaws(G, g, vs[0], Total(G, vs[1..]));
  }

  // Sums.

  ghost predicate StepClashAt<T>(K: Setting<T>, G: Group<Complete<T>>, g: Complete<T>, ds: seq<Point<T>>, i: nat)
    requires i < |ds|
  {
    StepClash(K, G, Partial(K, G, g, ds, i), Affine(ds[i]))
  }

  ghost predicate SomeStepClashes<T>(K: Setting<T>, G: Group<Complete<T>>, g: Complete<T>, ds: seq<Point<T>>) {
    exists i: nat :: i < |ds| && StepClashAt(K, G, g, ds, i)
  }

  lemma StepClashTail<T(!new)>(K: Setting<T>, G: Group<Complete<T>>, g: Complete<T>, ds: seq<Point<T>>)
    requires Fits(K, G) && G.member(g) && AllOn(G, ds) && ds != []
    ensures SomeStepClashes(K, G, g, ds) <==>
              StepClash(K, G, g, Affine(ds[0])) || SomeStepClashes(K, G, G.op(g, Value(K, G, ds[0])), ds[1..])
  {
    PartialStart(K, G, g, ds);
    assert StepClashAt(K, G, g, ds, 0) <==> StepClash(K, G, g, Affine(ds[0]));
    var next := G.op(g, Value(K, G, ds[0]));
    forall i: nat | i < |ds| - 1
      ensures StepClashAt(K, G, g, ds, i + 1) <==> StepClashAt(K, G, next, ds[1..], i)
    {
      PartialNext(K, G, g, ds, i);
    }
    if i: nat :| i < |ds| && StepClashAt(K, G, g, ds, i) {
      if i > 0 {
        assert StepClashAt(K, G, next, ds[1..], i - 1);
      }
    }
    if i: nat :| i < |ds| - 1 && StepClashAt(K, G, next, ds[1..], i) {
      assert StepClashAt(K, G, g, ds, i + 1);
    }
  }

  lemma {:induction false} AccumulatePanicsIff<T(!new)>(
      K: Setting<T>, G: Group<Complete<T>>, p: Point<T>, ds: seq<Point<T>>)
    requires Fits(K, G) && AllOn(G, ds) && G.member(Affine(p))
    ensures Accumulate(K, Some(p), ds).None? <==> SomeStepClashes(K, G, Affine(p), ds)
    decreases ds
  {
    if ds != [] {
      StepOp(K, G, p, ds[0]);
      StepClashTail(K, G, Affine(p), ds);
      var next := Step(K, Some(p), ds[0]);
      if next.Some? {
        AccumulatePanicsIff(K, G, next.value, ds[1..]);
      } else {
        AccumulateOp(K, G, None, ds[1..]);
      }
    }
  }

  /** `Sum` panics exactly when a running sum meets a digest, the zero digest or the start, or its negative. */
  lemma SumPanicsIff<T(!new)>(K: Setting<T>, G: Group<Complete<T>>, ds: seq<Point<T>>)
    requires Fits(K, G) && AllOn(G, ds)
    ensures SumDigests(K, ds).None? <==>
              || SomeStepClashes(K, G, Affine(K.start), ds)
              || FinishClash(K, G, G.op(Affine(K.start), Total(G, Values(K, G, ds))))
  {
    AccumulatePanicsIff(K, G, K.start, ds);
    AccumulateOp(K, G, Some(K.start), ds);
    var acc := Accumulate(K, Some(K.start), ds);
    if acc.Some? {
      ValuesMembers(K, G, ds);
      TotalMember(G, Values(K, G, ds));
      FinishOp(K, G, acc.value, Total(G, Values(K, G, ds)));
    }
  }

  // Repeated addition.

  /** One of the six additions in the sum of two digests cannot be done. */
  ghost predicate AddClash<T>(K: Setting<T>, G: Group<Complete<T>>, g: Complete<T>, h: Complete<T>) {
    var z := G.inv(Affine(K.zero));
    var one := G.op(Affine(K.start), G.op(g, z));
    var two := G.op(one, G.op(h, z));
    StepClash(K, G, Affine(K.start), g) || StepClash(K, G, one, h) || FinishClash(K, G, two)
  }

  lemma AddPanicsIff<T(!new)>(K: Setting<T>, G: Group<Complete<T>>, a: Point<T>, b: Point<T>)
    requires Fits(K, G) && G.member(Affine(a)) && G.member(Affine(b))
    ensures AddDigest(K, a, b).None? <==> AddClash(K, G, Affine(a), Affine(b))
  {
    StepOp(K, G, K.start, a);
    var one := Step(K, Some(K.start), a);
    if one.Some? {
      StepOp(K, G, one.value, b);
      var two := Step(K, one, b);
      if two.Some? {
        var va, vb := Value(K, G, a), Value(K, G, b);
        ValueMember(K, G, a);
        ValueMember(K, G, b);
        assert GroupLaws(G, Affine(K.start), va, vb) && GroupLaws(G, va, vb, vb);
        FinishOp(K, G, two.value, G.op(va, vb));
      }
    }
  }

  /** A sum of two digests is the first moved by the value of the second. */
  lemma AddMoves<T(!new)>(K: Setting<T>, G: Group<Complete<T>>, a: Point<T>, b: Point<T>)
    requires Fits(K, G) && G.member(Affine(a)) && G.member(Affine(b)) && AddDigest(K, a, b).Some?
    ensures var r := AddDigest(K, a, b).value;
            G.member(Affine(r)) && Affine(r) == G.op(Affine(a), Value(K, G, b))
  {
    AddValue(K, G, a, b);
    var r, vb, z := AddDigest(K, a, b).value, Value(K, G, b), G.inv(Affine(K.zero));
    ValueMember(K, G, b);
    InverseTwice(G, Affine(K.zero));
    assert GroupLaws(G, Affine(a), z, vb) && GroupLaws(G, z, vb, vb) && GroupLaws(G, Affine(a), vb, z);
    CancelRight(G, Affine(r), G.op(Affine(a), vb), z);
  }

  ghost predicate AddClashAt<T>(K: Setting<T>, G: Group<Complete<T>>, g: Complete<T>, ds: seq<Point<T>>, i: nat)
    requires i < |ds|
  {
    AddClash(K, G, Partial(K, G, g, ds, i), Affine(ds[i]))
  }

  ghost predicate SomeAddClashes<T>(K: Setting<T>, G: Group<Complete<T>>, g: Complete<T>, ds: seq<Point<T>>) {
    exists i: nat :: i < |ds| && AddClashAt(K, G, g, ds, i)
  }

  lemma AddClashTail<T(!new)>(K: Setting<T>, G: Group<Complete<T>>, g: Complete<T>, ds: seq<Point<T>>)
    requires Fits(K, G) && G.member(g) && AllOn(G, ds) && ds != []
    ensures SomeAddClashes(K, G, g, ds) <==>
              AddClash(K, G, g, Affine(ds[0])) || SomeAddClashes(K, G, G.op(g, Value(K, G, ds[0])), ds[1..])
  {
    PartialStart(K, G, g, ds);
    assert AddClashAt(K, G, g, ds, 0) <==> AddClash(K, G, g, Affine(ds[0]));
    var next := G.op(g, Value(K, G, ds[0]));
    forall i: nat | i < |ds| - 1
      ensures AddClashAt(K, G, g, ds, i + 1) <==> AddClashAt(K, G, next, ds[1..], i)
    {
      PartialNext(K, G, g, ds, i);
    }
    if i: nat :| i < |ds| && AddClashAt(K, G, g, ds, i) {
      if i > 0 {
        assert AddClashAt(K, G, next, ds[1..], i - 1);
      }
    }
    if i: nat :| i < |ds| - 1 && AddClashAt(K, G, next, ds[1..], i) {
      assert AddClashAt(K, G, g, ds, i + 1);
    }
  }

  /** The verifier's repeated addition panics exactly when one of its partial sums clashes with the next digest. */
  lemma {:induction false} IteratePanicsIff<T(!new)>(
      K: Setting<T>, G: Group<Complete<T>>, p: Point<T>, ds: seq<Point<T>>)
    requires Fits(K, G) && AllOn(G, ds) && G.member(Affine(p))
    ensures Iterate(K, Some(p), ds).None? <==> SomeAddClashes(K, G, Affine(p), ds)
    decreases ds
  {
    if ds != [] {
      AddPanicsIff(K, G, p, ds[0]);
      AddClashTail(K, G, Affine(p), ds);
      var next := AddDigest(K, p, ds[0]);
      if next.Some? {
        AddMoves(K, G, p, ds[0]);
        IteratePanicsIff(K, G, next.value, ds[1..]);
      } else {
        IterateValue(K, G, None, ds[1..]);
      }
    }
  }
}
