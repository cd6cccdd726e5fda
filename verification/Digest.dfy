/** Global cumulative sums: curve points kept away from exceptional additions by two offsets. */
module Digest {
  import opened Wrappers
  import opened Curve
  import opened Groups

  /** The curve with the digest that counts as zero and the point every accumulation starts from. */
  datatype Setting<!T(==)> = Setting(C: Curve<T>, zero: Point<T>, start: Point<T>)

  // The source's operations. An addition with equal abscissas divides by zero and panics.

  function AddTo<T(==)>(C: Curve<T>, acc: Option<Point<T>>, p: Point<T>): Option<Point<T>> {
    if acc.None? || acc.value.x == p.x then None else Some(C.AddIncomplete(acc.value, p))
  }

  function SubFrom<T(==)>(C: Curve<T>, acc: Option<Point<T>>, p: Point<T>): Option<Point<T>> {
    AddTo(C, acc, C.Neg(p))
  }

  /** Adds `d - zero`. */
  function Step<T(==)>(K: Setting<T>, acc: Option<Point<T>>, d: Point<T>): Option<Point<T>> {
    SubFrom(K.C, AddTo(K.C, acc, d), K.zero)
  }

  /** Adds `zero - start`. */
  function Finish<T(==)>(K: Setting<T>, acc: Option<Point<T>>): Option<Point<T>> {
    SubFrom(K.C, AddTo(K.C, acc, K.zero), K.start)
  }

  function AddDigest<T(==)>(K: Setting<T>, a: Point<T>, b: Point<T>): Option<Point<T>> {
    Finish(K, Step(K, Step(K, Some(K.start), a), b))
  }

  function Accumulate<T(==)>(K: Setting<T>, acc: Option<Point<T>>, ds: seq<Point<T>>): Option<Point<T>>
    decreases ds
  {
    if ds == [] then acc else Accumulate(K, Step(K, acc, ds[0]), ds[1..])
  }

  function SumDigests<T(==)>(K: Setting<T>, ds: seq<Point<T>>): Option<Point<T>> {
    Finish(K, Accumulate(K, Some(K.start), ds))
  }

  /** Repeated addition of digests, as the verifier adds them to the key's initial sum. */
  function Iterate<T(==)>(K: Setting<T>, acc: Option<Point<T>>, ds: seq<Point<T>>): Option<Point<T>>
    decreases ds
  {
    if ds == [] then acc
    else Iterate(K, if acc.None? then None else AddDigest(K, acc.value, ds[0]), ds[1..])
  }

  // The group.

  ghost predicate AssociatesAt<T>(C: Curve<T>, g: Complete<T>, h: Complete<T>, k: Complete<T>) {
    Member(C, g) && Member(C, h) && Member(C, k) ==> Plus(C, Plus(C, g, h), k) == Plus(C, g, Plus(C, h, k))
  }

  /** The one fact about the curve that is taken as a hypothesis: its addition is associative. */
  ghost predicate Associative<T(!new)>(C: Curve<T>) {
    forall g, h, k :: AssociatesAt(C, g, h, k)
  }

  ghost function CurveGroup<T>(C: Curve<T>): Group<Complete<T>> {
    Group(g => Member(C, g), Infinity, (g, h) => Plus(C, g, h), g => Minus(C, g))
  }

  lemma CurveIsGroup<T(!new)>(C: Curve<T>)
    requires Valid(C) && Associative(C)
    ensures IsGroup(CurveGroup(C))
  {
    forall g, h, k
      ensures GroupLaws(CurveGroup(C), g, h, k)
    {
      CompleteAddIff(C, g, h);
      PlusMinus(C, g);
      PlusCommutes(C, g, h);
      assert AssociatesAt(C, g, h, k);
    }
  }

  ghost predicate AddsAt<T>(K: Setting<T>, G: Group<Complete<T>>, p: Point<T>, q: Point<T>) {
    && (p.x != q.x ==> G.op(Affine(p), Affine(q)) == Affine(K.C.AddIncomplete(p, q)))
    && G.inv(Affine(p)) == Affine(K.C.Neg(p))
    && (G.member(Affine(p)) && G.member(Affine(q)) ==> (p.x == q.x <==> Clash(G, Affine(p), Affine(q))))
  }

  /** Equal or opposite: the pairs an incomplete addition cannot add. */
  ghost predicate Clash<T>(G: Group<T>, g: T, h: T) {
    g == h || g == G.inv(h)
  }

  /** `G` is a group that the setting's incomplete additions compute in. */
  ghost predicate Fits<T(!new)>(K: Setting<T>, G: Group<Complete<T>>) {
    && IsGroup(G) && G.unit == Infinity
    && G.member(Affine(K.zero)) && G.member(Affine(K.start))
    && forall p, q :: AddsAt(K, G, p, q)
  }

  lemma SettingFits<T(!new)>(K: Setting<T>)
    requires Valid(K.C) && Associative(K.C) && K.C.OnCurve(K.zero) && K.C.OnCurve(K.start)
    ensures Fits(K, CurveGroup(K.C))
  {
    CurveIsGroup(K.C);
    forall p, q
      ensures AddsAt(K, CurveGroup(K.C), p, q)
    {
      if K.C.OnCurve(p) && K.C.OnCurve(q) {
        SameAbscissaIff(K.C, p, q);
      }
    }
  }

  /** What a digest stands for: its difference from the zero digest. */
  ghost function Value<T>(K: Setting<T>, G: Group<Complete<T>>, d: Point<T>): Complete<T> {
    G.op(Affine(d), G.inv(Affine(K.zero)))
  }

  ghost function Values<T>(K: Setting<T>, G: Group<Complete<T>>, ds: seq<Point<T>>): seq<Complete<T>> {
    seq(|ds|, i requires 0 <= i < |ds| => Value(K, G, ds[i]))
  }

  ghost predicate AllOn<T>(G: Group<Complete<T>>, ds: seq<Point<T>>) {
    forall d <- ds :: G.member(Affine(d))
  }

  lemma ValueMember<T(!new)>(K: Setting<T>, G: Group<Complete<T>>, d: Point<T>)
    requires Fits(K, G) && G.member(Affine(d))
    ensures G.member(Value(K, G, d))
  {
    var z := Affine(K.zero);
    assert GroupLaws(G, z, z, z);
    assert GroupLaws(G, Affine(d), G.inv(z), z);
  }

  lemma ValuesMembers<T(!new)>(K: Setting<T>, G: Group<Complete<T>>, ds: seq<Point<T>>)
    requires Fits(K, G) && AllOn(G, ds)
    ensures Members(G, Values(K, G, ds))
  {
    forall x | x in Values(K, G, ds)
      ensures G.member(x)
    {
      var i :| 0 <= i < |ds| && Values(K, G, ds)[i] == x;
      ValueMember(K, G, ds[i]);
    }
  }

  /** Different digests have different values, and only the zero digest has value infinity. */
  lemma ValueInjective<T(!new)>(K: Setting<T>, G: Group<Complete<T>>, d: Point<T>, e: Point<T>)
    requires Fits(K, G) && G.member(Affine(d)) && G.member(Affine(e))
    ensures Value(K, G, d) == Value(K, G, e) <==> d == e
    ensures Value(K, G, d) == Infinity <==> d == K.zero
  {
    var z := Affine(K.zero);
    assert GroupLaws(G, z, z, z);
    assert GroupLaws(G, G.inv(z), z, z);
    CancelRight(G, Affine(d), Affine(e), G.inv(z));
    CancelRight(G, Affine(d), z, G.inv(z));
  }

  lemma AddToOp<T(!new)>(K: Setting<T>, G: Group<Complete<T>>, p: Point<T>, q: Point<T>)
    requires Fits(K, G) && G.member(Affine(p)) && G.member(Affine(q))
    ensures var r := AddTo(K.C, Some(p), q);
            && (r.None? <==> Clash(G, Affine(p), Affine(q)))
            && (r.Some? ==> Affine(r.value) == G.op(Affine(p), Affine(q)) && G.member(Affine(r.value)))
  {
    assert AddsAt(K, G, p, q);
    assert GroupLaws(G, Affine(p), Affine(q), Affine(q));
  }

  lemma SubFromOp<T(!new)>(K: Setting<T>, G: Group<Complete<T>>, p: Point<T>, q: Point<T>)
    requires Fits(K, G) && G.member(Affine(p)) && G.member(Affine(q))
    ensures var r := SubFrom(K.C, Some(p), q);
            && (r.None? <==> Clash(G, Affine(p), Affine(q)))
            && (r.Some? ==> Affine(r.value) == G.op(Affine(p), G.inv(Affine(q))) && G.member(Affine(r.value)))
  {
    InverseTwice(G, Affine(q));
    assert AddsAt(K, G, q, q);
    assert GroupLaws(G, Affine(q), Affine(q), Affine(q));
    AddToOp(K, G, p, K.C.Neg(q));
  }

  /** One of the two additions of a step cannot be done. */
  ghost predicate StepClash<T>(K: Setting<T>, G: Group<Complete<T>>, g: Complete<T>, d: Complete<T>) {
    Clash(G, g, d) || Clash(G, G.op(g, d), Affine(K.zero))
  }

  lemma StepOp<T(!new)>(K: Setting<T>, G: Group<Complete<T>>, p: Point<T>, d: Point<T>)
    requires Fits(K, G) && G.member(Affine(p)) && G.member(Affine(d))
    ensures var r := Step(K, Some(p), d);
            && (r.None? <==> StepClash(K, G, Affine(p), Affine(d)))
            && (r.Some? ==> Affine(r.value) == G.op(Affine(p), Value(K, G, d)) && G.member(Affine(r.value)))
  {
    AddToOp(K, G, p, d);
    var q := AddTo(K.C, Some(p), d);
    if q.Some? {
      SubFromOp(K, G, q.value, K.zero);
      var z := Affine(K.zero);
      assert GroupLaws(G, z, z, z);
      assert GroupLaws(G, Affine(p), Affine(d), G.inv(z));
    }
  }

  lemma {:induction false} AccumulateOp<T(!new)>(K: Setting<T>, G: Group<Complete<T>>, acc: Option<Point<T>>,
                                                 ds: seq<Point<T>>)
    requires Fits(K, G) && AllOn(G, ds) && (acc.Some? ==> G.member(Affine(acc.value)))
    ensures acc.None? ==> Accumulate(K, acc, ds).None?
    ensures var r := Accumulate(K, acc, ds);
            acc.Some? && r.Some? ==>
              Affine(r.value) == G.op(Affine(acc.value), Total(G, Values(K, G, ds))) && G.member(Affine(r.value))
    decreases ds
  {
    if ds == [] {
      if acc.Some? {
        assert GroupLaws(G, Affine(acc.value), G.unit, G.unit);
      }
    } else {
      assert Values(K, G, ds)[1..] == Values(K, G, ds[1..]);
      var next := Step(K, acc, ds[0]);
      if acc.Some? {
        StepOp(K, G, acc.value, ds[0]);
      }
      AccumulateOp(K, G, next, ds[1..]);
      if acc.Some? {
        ValueMember(K, G, ds[0]);
        ValuesMembers(K, G, ds[1..]);
        TotalMember(G, Values(K, G, ds[1..]));
        assert GroupLaws(G, Affine(acc.value), Value(K, G, ds[0]), Total(G, Values(K, G, ds[1..])));
      }
    }
  }

  /** One of the two final additions cannot be done. */
  ghost predicate FinishClash<T>(K: Setting<T>, G: Group<Complete<T>>, g: Complete<T>) {
    Clash(G, g, Affine(K.zero)) || Clash(G, G.op(g, Affine(K.zero)), Affine(K.start))
  }

  /** The offsets cancel: finishing `start + v` leaves the digest of value `v`. */
  lemma FinishOp<T(!new)>(K: Setting<T>, G: Group<Complete<T>>, p: Point<T>, v: Complete<T>)
    requires Fits(K, G) && G.member(v) && G.member(Affine(p)) && Affine(p) == G.op(Affine(K.start), v)
    ensures var r := Finish(K, Some(p));
            && (r.None? <==> FinishClash(K, G, Affine(p)))
            && (r.Some? ==> Value(K, G, r.value) == v && G.member(Affine(r.value)))
  {
    var q := AddTo(K.C, Some(p), K.zero);
    AddToOp(K, G, p, K.zero);
    if q.Some? {
      SubFromOp(K, G, q.value, K.start);
      FinishAlgebra(G, Affine(K.start), Affine(K.zero), v);
    }
  }

  lemma FinishAlgebra<T(!new)>(G: Group<T>, s: T, z: T, v: T)
    requires IsGroup(G) && G.member(s) && G.member(z) && G.member(v)
    ensures G.op(G.op(G.op(G.op(s, v), z), G.inv(s)), G.inv(z)) == v
  {
    assert GroupLaws(G, s, v, z) && GroupLaws(G, v, z, z);
    assert GroupLaws(G, s, G.op(v, z), s);
    CancelRight(G, G.op(v, z), v, s);
    CancelRight(G, v, v, z);
  }

  /** `Sum` adds up the values of the digests; the start point cancels. */
  lemma SumValue<T(!new)>(K: Setting<T>, G: Group<Complete<T>>, ds: seq<Point<T>>)
    requires Fits(K, G) && AllOn(G, ds)
    ensures var r := SumDigests(K, ds);
            r.Some? ==> Value(K, G, r.value) == Total(G, Values(K, G, ds)) && G.member(Affine(r.value))
  {
    AccumulateOp(K, G, Some(K.start), ds);
    ValuesMembers(K, G, ds);
    TotalMember(G, Values(K, G, ds));
    var acc := Accumulate(K, Some(K.start), ds);
    if acc.Some? {
      FinishOp(K, G, acc.value, Total(G, Values(K, G, ds)));
    }
  }

  lemma AddIsSum<T(!new)>(K: Setting<T>, a: Point<T>, b: Point<T>)
    ensures AddDigest(K, a, b) == SumDigests(K, [a, b])
  {
    assert [a, b][1..] == [b] && [b][1..] == [];
    var s := Step(K, Some(K.start), a);
    assert Accumulate(K, s, [b]) == Accumulate(K, Step(K, s, b), []);
  }

  lemma AddValue<T(!new)>(K: Setting<T>, G: Group<Complete<T>>, a: Point<T>, b: Point<T>)
    requires Fits(K, G) && G.member(Affine(a)) && G.member(Affine(b))
    ensures var r := AddDigest(K, a, b);
            r.Some? ==> Value(K, G, r.value) == G.op(Value(K, G, a), Value(K, G, b)) && G.member(Affine(r.value))
  {
    AddIsSum(K, a, b);
    SumValue(K, G, [a, b]);
    var vs := Values(K, G, [a, b]);
    assert vs == [Value(K, G, a), Value(K, G, b)];
    assert vs[1..] == [Value(K, G, b)] && vs[1..][1..] == [];
    ValueMember(K, G, b);
    assert GroupLaws(G, Value(K, G, b), G.unit, G.unit);
    assert Total(G, vs[1..]) == G.op(Value(K, G, b), Total(G, vs[1..][1..]));
  }

  /** Repeated addition adds the values up too. */
  lemma {:induction false} IterateValue<T(!new)>(K: Setting<T>, G: Group<Complete<T>>, acc: Option<Point<T>>,
                                                 ds: seq<Point<T>>)
    requires Fits(K, G) && AllOn(G, ds) && (acc.Some? ==> G.member(Affine(acc.value)))
    ensures acc.None? ==> Iterate(K, acc, ds).None?
    ensures var r := Iterate(K, acc, ds);
            acc.Some? && r.Some? ==>
              && Value(K, G, r.value) == G.op(Value(K, G, acc.value), Total(G, Values(K, G, ds)))
              && G.member(Affine(r.value))
    decreases ds
  {
    if acc.Some? {
      ValueMember(K, G, acc.value);
    }
    if ds == [] {
      if acc.Some? {
        assert GroupLaws(G, Value(K, G, acc.value), G.unit, G.unit);
      }
    } else {
      assert Values(K, G, ds)[1..] == Values(K, G, ds[1..]);
      if acc.Some? {
        AddValue(K, G, acc.value, ds[0]);
      }
      IterateValue(K, G, if acc.None? then None else AddDigest(K, acc.value, ds[0]), ds[1..]);
      if acc.Some? {
        ValueMember(K, G, ds[0]);
        ValuesMembers(K, G, ds[1..]);
        TotalMember(G, Values(K, G, ds[1..]));
        assert GroupLaws(G, Value(K, G, acc.value), Value(K, G, ds[0]), Total(G, Values(K, G, ds[1..])));
      }
    }
  }

  // Main results, for digests on the curve, when no addition is exceptional.

  /** Adding digests one at a time to an initial one is summing them all. */
  lemma IterateIsSum<T(!new)>(K: Setting<T>, G: Group<Complete<T>>, initial: Point<T>, ds: seq<Point<T>>)
    requires Fits(K, G) && AllOn(G, ds) && G.member(Affine(initial))
    ensures Iterate(K, Some(initial), ds).Some? && SumDigests(K, [initial] + ds).Some? ==>
              Iterate(K, Some(initial), ds) == SumDigests(K, [initial] + ds)
  {
    var all := [initial] + ds;
    var r, t := Iterate(K, Some(initial), ds), SumDigests(K, all);
    IterateValue(K, G, Some(initial), ds);
    SumValue(K, G, all);
    assert Values(K, G, all)[1..] == Values(K, G, ds);
    if r.Some? && t.Some? {
      ValueInjective(K, G, r.value, t.value);
    }
  }

  /** The final sum does not depend on the order of the shards. */
  lemma OrderIrrelevant<T(!new)>(K: Setting<T>, G: Group<Complete<T>>, initial: Point<T>, ds: seq<Point<T>>,
                                 es: seq<Point<T>>)
    requires Fits(K, G) && AllOn(G, ds) && AllOn(G, es) && G.member(Affine(initial)) && multiset(ds) == multiset(es)
    ensures Iterate(K, Some(initial), ds).Some? && Iterate(K, Some(initial), es).Some? ==>
              Iterate(K, Some(initial), ds) == Iterate(K, Some(initial), es)
  {
    var r, t := Iterate(K, Some(initial), ds), Iterate(K, Some(initial), es);
    IterateValue(K, G, Some(initial), ds);
    IterateValue(K, G, Some(initial), es);
    var value := d => Value(K, G, d);
    assert Values(K, G, ds) == Mapped(value, ds) && Values(K, G, es) == Mapped(value, es);
    MappedPermutes(value, ds, es);
    ValuesMembers(K, G, ds);
    TotalPermutes(G, Values(K, G, ds), Values(K, G, es));
    if r.Some? && t.Some? {
      ValueInjective(K, G, r.value, t.value);
    }
  }

  /** The verifier sees the zero digest exactly when all the values add up to infinity. */
  lemma ZeroIffBalanced<T(!new)>(K: Setting<T>, G: Group<Complete<T>>, initial: Point<T>, ds: seq<Point<T>>)
    requires Fits(K, G) && AllOn(G, ds) && G.member(Affine(initial))
    ensures Iterate(K, Some(initial), ds).Some? ==>
              (Iterate(K, Some(initial), ds).value == K.zero <==>
               Total(G, [Value(K, G, initial)] + Values(K, G, ds)) == Infinity)
  {
    IterateValue(K, G, Some(initial), ds);
    var r := Iterate(K, Some(initial), ds);
    if r.Some? {
      ValueInjective(K, G, r.value, r.value);
    }
    var all := [Value(K, G, initial)] + Values(K, G, ds);
    assert all[1..] == Values(K, G, ds);
  }

  /** The source's `Sum`: a fold, then two updates of the accumulated point. */
  method Sum<T(==)>(K: Setting<T>, ds: seq<Point<T>>) returns (r: Option<Point<T>>)
    ensures r == SumDigests(K, ds)
  {
    r := Some(K.start);
    for i := 0 to |ds|
      invariant Accumulate(K, r, ds[i..]) == Accumulate(K, Some(K.start), ds)
    {
      assert ds[i..][1..] == ds[i + 1..];
      r := AddTo(K.C, r, ds[i]);
      r := SubFrom(K.C, r, K.zero);
    }
    r := AddTo(K.C, r, K.zero);
    r := SubFrom(K.C, r, K.start);
  }
}
