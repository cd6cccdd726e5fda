/** Lifting a message to a curve point: the search over offsets. */
module SepticLift {
  import opened Wrappers
  import opened Modular
  import opened Algebra
  import opened KoalaBear
  import opened Septic
  import opened SepticContext
  import opened SepticSqrt
  import opened Curve
  import opened SepticCurve

  const HALF: nat := 1065353217

  predicate IsReceive(y: E) {
    1 <= y.c6 < HALF
  }

  predicate IsSend(y: E) {
    HALF <= y.c6 <= P - 1
  }

  predicate IsException(y: E) {
    y.c6 == 0
  }

  ghost predicate NegatesAt(S: Ring<E>, y: E) {
    S.neg(y).c6 == if y.c6 == 0 then 0 else P - y.c6
  }

  ghost predicate Negates(S: Ring<E>) {
    forall y: E :: NegatesAt(S, y)
  }

  lemma SourceNegates()
    ensures Negates(SepticRing(FpRing()))
  {
    forall y: E
      ensures NegatesAt(SepticRing(FpRing()), y)
    {
    }
  }

  /** Of a nonexceptional ordinate and its negative, exactly one is a receive and the other is a send. */
  lemma SignsSplit(S: Ring<E>, y: E)
    requires Negates(S)
    ensures IsException(S.neg(y)) <==> IsException(y)
    ensures IsSend(S.neg(y)) <==> IsReceive(y)
    ensures IsReceive(S.neg(y)) <==> IsSend(y)
    ensures IsException(y) || (IsSend(y) != IsReceive(y))
  {
    assert NegatesAt(S, y);
  }

  /** The permutation's input for an offset. */
  function Trial(m: seq<Fp>, offset: nat): seq<Fp>
    requires |m| == 8 && offset <= 255
  {
    m[..7] + [Add(m[7], Mul(65536, offset))] + [0, 0, 0, 0, 0, 0, 0, 0]
  }

  /** The receive point above an abscissa. */
  ghost predicate Lifts(C: Curve<E>, x: E, p: Point<E>) {
    p.x == x && C.OnCurve(p) && IsReceive(p.y)
  }

  /** An abscissa has at most one receive point, whichever square root is found. */
  lemma LiftUnique(k: Arith, x: E, p: Point<E>, q: Point<E>)
    requires Koala(k) && Negates(k.S) && Lifts(SourceCurve(k), x, p) && Lifts(SourceCurve(k), x, q)
    ensures p == q
  {
    SourceIsField(k);
    RootsAreOpposite(SepticFieldOf(k), p.y, q.y);
    SignsSplit(k.S, p.y);
  }

  /** One try: the receive point above an abscissa, if there is one. */
  method LiftOne(k: Arith, x: E, g: Fp) returns (result: Option<Point<E>>)
    requires Koala(k) && Negates(k.S) && Primitive(g)
    ensures result.Some? ==> Lifts(SourceCurve(k), x, result.value)
    ensures result.None? ==> forall p :: !Lifts(SourceCurve(k), x, p)
  {
    SourceIsField(k);
    var root := Sqrt(k, SourceCurve(k).Formula(x), g);
    if root.None? {
      return None;
    }
    var y := root.value;
    SignsSplit(k.S, y);
    if IsException(y) {
      forall p: Point<E> | p.x == x && SourceCurve(k).OnCurve(p)
        ensures !IsReceive(p.y)
      {
        RootsAreOpposite(SepticFieldOf(k), y, p.y);
      }
      return None;
    }
    if IsSend(y) {
      NegOnCurve(SourceCurve(k), Point(x, y));
      return Some(Point(x, k.S.neg(y)));
    }
    return Some(Point(x, y));
  }

  /** The permutation of sixteen field elements. */
  ghost predicate Permutes(permute: seq<Fp> -> seq<Fp>) {
    forall t :: |t| == 16 ==> |permute(t)| == 16
  }

  /** The abscissa in the first seven elements of a permutation's output. */
  function Abscissa(out: seq<Fp>): E
    requires |out| >= 7
  {
    Septic(out[0], out[1], out[2], out[3], out[4], out[5], out[6])
  }

  /** What the search returns: the point, the offset, and the permutation's input and output. */
  datatype Lifted = Lifted(point: Point<E>, offset: nat, trial: seq<Fp>, hash: seq<Fp>)

  /** The permutation's input for an offset: the message with its last element shifted, and eight zeros. */
  ghost predicate IsTrial(m: seq<Fp>, offset: nat, t: seq<Fp>)
    requires |m| == 8
  {
    && |t| == 16
    && (forall i :: 0 <= i < 7 ==> t[i] == m[i])
    && t[7] == (m[7] + 65536 * offset) % P
    && forall i :: 8 <= i < 16 ==> t[i] == 0
  }

  /** A point of the curve whose abscissa is the hash's first seven elements, with its ordinate in the lower half. */
  ghost predicate IsReceivePoint(k: Arith, hash: seq<Fp>, p: Point<E>)
    requires |hash| == 16
  {
    && p.x.c0 == hash[0] && p.x.c1 == hash[1] && p.x.c2 == hash[2] && p.x.c3 == hash[3]
    && p.x.c4 == hash[4] && p.x.c5 == hash[5] && p.x.c6 == hash[6]
    && SourceCurve(k).OnCurve(p)
    && 1 <= p.y.c6 <= 1065353216
  }

  ghost predicate NoLift(k: Arith, permute: seq<Fp> -> seq<Fp>, m: seq<Fp>, offset: nat)
    requires Permutes(permute) && |m| == 8 && offset <= 255
  {
    forall t, p :: IsTrial(m, offset, t) ==> !IsReceivePoint(k, permute(t), p)
  }

  /** The receive point above the hash of the least offset that has one. */
  ghost predicate IsLift(k: Arith, permute: seq<Fp> -> seq<Fp>, m: seq<Fp>, r: Lifted)
    requires Permutes(permute) && |m| == 8
  {
    && r.offset <= 255
    && IsTrial(m, r.offset, r.trial) && r.hash == permute(r.trial)
    && IsReceivePoint(k, r.hash, r.point)
    && forall o: nat :: o < r.offset ==> NoLift(k, permute, m, o)
  }

  lemma TrialIff(m: seq<Fp>, offset: nat, t: seq<Fp>)
    requires |m| == 8 && offset <= 255
    ensures IsTrial(m, offset, t) <==> t == Trial(m, offset)
  {
    ModSmall(65536 * offset, P);
  }

  lemma ReceivePointIff(k: Arith, hash: seq<Fp>, p: Point<E>)
    requires |hash| == 16
    ensures IsReceivePoint(k, hash, p) <==> Lifts(SourceCurve(k), Abscissa(hash), p)
  {
  }

  /** An offset whose abscissa has no receive point. */
  lemma NothingLifts(k: Arith, permute: seq<Fp> -> seq<Fp>, m: seq<Fp>, offset: nat)
    requires Permutes(permute) && |m| == 8 && offset <= 255
    requires forall p :: !Lifts(SourceCurve(k), Abscissa(permute(Trial(m, offset))), p)
    ensures NoLift(k, permute, m, offset)
  {
    forall t, p | IsTrial(m, offset, t)
      ensures !IsReceivePoint(k, permute(t), p)
    {
      TrialIff(m, offset, t);
      ReceivePointIff(k, permute(t), p);
    }
  }

  /** The search; `None` is the panic after 256 tries. */
  method LiftX(k: Arith, permute: seq<Fp> -> seq<Fp>, m: seq<Fp>, g: Fp) returns (result: Option<Lifted>)
    requires Koala(k) && Negates(k.S) && Primitive(g) && Permutes(permute) && |m| == 8
    ensures result.Some? ==> IsLift(k, permute, m, result.value)
    ensures result.None? ==> forall o: nat :: o <= 255 ==> NoLift(k, permute, m, o)
  {
    for offset := 0 to 256
      invariant forall o: nat :: o < offset ==> NoLift(k, permute, m, o)
    {
      var trial := Trial(m, offset);
      var hash := permute(trial);
      var point := LiftOne(k, Abscissa(hash), g);
      if point.Some? {
        TrialIff(m, offset, trial);
        ReceivePointIff(k, hash, point.value);
        return Some(Lifted(point.value, offset, trial, hash));
      }
      NothingLifts(k, permute, m, offset);
    }
    result := None;
  }

  /** Two searches cannot return different results, whichever square roots they find. */
  lemma LiftXUnique(k: Arith, permute: seq<Fp> -> seq<Fp>, m: seq<Fp>, a: Lifted, b: Lifted)
    requires Koala(k) && Negates(k.S) && Permutes(permute) && |m| == 8
    requires IsLift(k, permute, m, a) && IsLift(k, permute, m, b)
    ensures a == b
  {
    assert a.offset < b.offset ==> NoLift(k, permute, m, a.offset);
    assert b.offset < a.offset ==> NoLift(k, permute, m, b.offset);
    TrialIff(m, a.offset, a.trial);
    TrialIff(m, b.offset, b.trial);
    ReceivePointIff(k, a.hash, a.point);
    ReceivePointIff(k, b.hash, b.point);
    LiftUnique(k, Abscissa(a.hash), a.point, b.point);
  }

  /** The search with the source's arithmetic and generator. */
  method SourceLift(permute: seq<Fp> -> seq<Fp>, m: seq<Fp>) returns (result: Option<Lifted>)
    requires Permutes(permute) && |m| == 8
    ensures result.Some? ==> IsLift(ArithOver(FpRing()), permute, m, result.value)
    ensures result.None? ==> forall o: nat :: o <= 255 ==> NoLift(ArithOver(FpRing()), permute, m, o)
  {
    SourceIsKoala();
    SourceNegates();
    ThreeIsPrimitive();
    result := LiftX(ArithOver(FpRing()), permute, m, 3);
  }
}
