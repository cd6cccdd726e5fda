/**
 The reducer seen as one ordered list of segments.

 A segment is either a run parked in the reducer's map or a proof in flight: a first-layer
 proof, or the result of a submitted batch, not yet delivered. The list is ordered by label.
 Delivering any in-flight segment rewrites the list locally; module CompressTree shows that
 the map-based code computes exactly this rewriting.
 */
module Segments {
  import opened RecursionProof

  datatype Run = Run(start: nat, end: nat, proofs: seq<Proof>)

  datatype Seg = Seg(run: Run, flying: bool)

  /**
   A round of reduction: labels range over `0..n`, batches hold `batch` proofs, `shards` is what
   the round's inputs attest in order, and `arity` bounds every compression so far.
   */
  datatype Round = Round(n: nat, batch: nat, arity: nat, shards: seq<nat>) {
    ghost predicate Valid() {
      1 <= n && 2 <= batch <= arity
    }
  }

  ghost function AllProofs(segs: seq<Seg>): seq<Proof> {
    if segs == [] then [] else segs[0].run.proofs + AllProofs(segs[1..])
  }

  ghost function Attested(segs: seq<Seg>): seq<nat> {
    Frontiers(AllProofs(segs))
  }

  ghost function FlyingCount(segs: seq<Seg>): nat {
    if segs == [] then 0 else (if segs[0].flying then 1 else 0) + FlyingCount(segs[1..])
  }

  /** The labels are non-empty and follow each other from `a` to `b`. */
  ghost predicate Chain(segs: seq<Seg>, a: nat, b: nat) {
    if segs == [] then a == b
    else segs[0].run.start == a < segs[0].run.end && Chain(segs[1..], segs[0].run.end, b)
  }

  ghost function ChainEnd(segs: seq<Seg>, a: nat): nat {
    if segs == [] then a else segs[|segs| - 1].run.end
  }

  ghost predicate FullLabel(run: Run, n: nat) {
    run.start == 0 && run.end == n
  }

  /** A run holds no more proofs than its label is wide; a parked run is short and not the whole range. */
  ghost predicate SegOk(s: Seg, r: Round) {
    && 1 <= |s.run.proofs|
    && s.run.start + |s.run.proofs| <= s.run.end
    && (s.flying ==> |s.run.proofs| == 1)
    && (!s.flying ==> |s.run.proofs| < r.batch && !FullLabel(s.run, r.n))
    && (forall p <- s.run.proofs :: AritiesWithin(p, r.arity))
  }

  ghost predicate AllOk(segs: seq<Seg>, r: Round) {
    forall s <- segs :: SegOk(s, r)
  }

  /** No two neighbouring segments are both parked. */
  ghost predicate NoTouch(segs: seq<Seg>) {
    forall i, j :: 0 <= i < j < |segs| && j == i + 1 ==> segs[i].flying || segs[j].flying
  }

  ghost predicate Inv(segs: seq<Seg>, r: Round) {
    && Chain(segs, 0, r.n)
    && AllOk(segs, r)
    && NoTouch(segs)
    && Attested(segs) == r.shards
  }

  // The transition.

  ghost predicate ParkedAt(segs: seq<Seg>, i: int) {
    0 <= i < |segs| && !segs[i].flying
  }

  ghost function Lo(segs: seq<Seg>, i: nat): nat {
    if ParkedAt(segs, i - 1) then i - 1 else i
  }

  ghost function Hi(segs: seq<Seg>, i: nat): nat {
    if ParkedAt(segs, i + 1) then i + 2 else i + 1
  }

  ghost function Merged(segs: seq<Seg>, i: nat): (r: Run)
    requires i < |segs|
  {
    var lo, hi := Lo(segs, i), Hi(segs, i);
    Run(segs[lo].run.start, segs[hi - 1].run.end, AllProofs(segs[lo..hi]))
  }

  /** What becomes of a merged run: submitted, parked, or split into both. */
  ghost function Settle(m: Run, r: Round): seq<Seg> {
    if |m.proofs| > r.batch then
      [Seg(Run(m.start, m.start + r.batch, [Compress(m.proofs[..r.batch])]), true),
       Seg(Run(m.start + r.batch, m.end, m.proofs[r.batch..]), false)]
    else if |m.proofs| == r.batch || FullLabel(m, r.n) then
      [Seg(Run(m.start, m.end, [Compress(m.proofs)]), true)]
    else
      [Seg(m, false)]
  }

  /** What the segments around a delivered one are replaced by. */
  ghost function Middle(segs: seq<Seg>, i: nat, r: Round): seq<Seg>
    requires i < |segs|
  {
    if Hi(segs, i) - Lo(segs, i) == 1 then [Seg(segs[i].run, false)]
    else Settle(Merged(segs, i), r)
  }

  ghost function Deliver(segs: seq<Seg>, i: nat, r: Round): seq<Seg>
    requires i < |segs|
  {
    segs[..Lo(segs, i)] + Middle(segs, i, r) + segs[Hi(segs, i)..]
  }

  /** The segments before anything is delivered: each input alone, labelled with its index. */
  ghost function Initial(ps: seq<Proof>): seq<Seg> {
    seq(|ps|, i requires 0 <= i < |ps| => Seg(Run(i, i + 1, [ps[i]]), true))
  }

  // Concatenation laws.

  lemma ConcatLaws(s: seq<Seg>, t: seq<Seg>)
    ensures AllProofs(s + t) == AllProofs(s) + AllProofs(t)
    ensures Attested(s + t) == Attested(s) + Attested(t)
    ensures FlyingCount(s + t) == FlyingCount(s) + FlyingCount(t)
  {
    AllProofsConcat(s, t);
    FrontiersConcat(AllProofs(s), AllProofs(t));
  }

  lemma {:induction false} AllProofsConcat(s: seq<Seg>, t: seq<Seg>)
    ensures AllProofs(s + t) == AllProofs(s) + AllProofs(t)
    ensures FlyingCount(s + t) == FlyingCount(s) + FlyingCount(t)
  {
    if s == [] {
      assert s + t == t;
    } else {
      AllProofsConcat(s[1..], t);
      assert (s + t)[1..] == s[1..] + t;
      ConcatAssoc(s[0].run.proofs, AllProofs(s[1..]), AllProofs(t));
    }
  }

  lemma {:induction false} ChainConcat(s: seq<Seg>, t: seq<Seg>, a: nat, c: nat)
    ensures Chain(s + t, a, c) <==> Chain(s, a, ChainEnd(s, a)) && Chain(t, ChainEnd(s, a), c)
  {
    if s == [] {
      assert s + t == t;
    } else {
      ChainConcat(s[1..], t, s[0].run.end, c);
      assert (s + t)[1..] == s[1..] + t;
    }
  }

  lemma NoTouchConcat(s: seq<Seg>, t: seq<Seg>)
    requires NoTouch(s) && NoTouch(t)
    requires s == [] || t == [] || s[|s| - 1].flying || t[0].flying
    ensures NoTouch(s + t)
  {
    var st := s + t;
    forall i, j | 0 <= i < j < |st| && j == i + 1
      ensures st[i].flying || st[j].flying
    {
      if j < |s| {
        assert s[i].flying || s[j].flying;
      } else if i >= |s| {
        assert t[i - |s|].flying || t[j - |s|].flying;
      }
    }
  }

  lemma NoTouchSlice(s: seq<Seg>, i: nat, j: nat)
    requires NoTouch(s) && i <= j <= |s|
    ensures NoTouch(s[i..j])
  {
    var t := s[i..j];
    forall x, y | 0 <= x < y < |t| && y == x + 1
      ensures t[x].flying || t[y].flying
    {
      assert s[x + i].flying || s[y + i].flying;
    }
  }

  lemma NoTouchSplice(segs: seq<Seg>, lo: nat, hi: nat, mid: seq<Seg>)
    requires lo <= hi <= |segs| && mid != [] && NoTouch(segs) && NoTouch(mid)
    requires lo == 0 || segs[lo - 1].flying
    requires hi == |segs| || segs[hi].flying
    ensures NoTouch(segs[..lo] + mid + segs[hi..])
  {
    NoTouchSlice(segs, 0, lo);
    NoTouchSlice(segs, hi, |segs|);
    NoTouchConcat(segs[..lo], mid);
    NoTouchConcat(segs[..lo] + mid, segs[hi..]);
  }

  lemma SplitInThree<T>(s: seq<T>, lo: nat, hi: nat)
    requires lo <= hi <= |s|
    ensures s == s[..lo] + (s[lo..hi] + s[hi..])
  {
  }

  lemma ReplaceChain(x: seq<Seg>, y: seq<Seg>, z: seq<Seg>, mid: seq<Seg>, a: nat, c: nat)
    requires y != [] && mid != [] && Chain(x + (y + z), a, c)
    requires Chain(mid, y[0].run.start, y[|y| - 1].run.end)
    ensures Chain(x + (mid + z), a, c)
  {
    ChainConcat(x, y + z, a, c);
    ChainConcat(y, z, ChainEnd(x, a), c);
    ChainSpan(mid, y[0].run.start, y[|y| - 1].run.end);
    ChainConcat(mid, z, ChainEnd(x, a), c);
    ChainConcat(x, mid + z, a, c);
  }

  lemma ReplaceAttested(x: seq<Seg>, y: seq<Seg>, z: seq<Seg>, mid: seq<Seg>)
    requires Attested(mid) == Attested(y)
    ensures Attested(x + (mid + z)) == Attested(x + (y + z))
  {
    ConcatLaws(x, y + z); ConcatLaws(y, z);
    ConcatLaws(x, mid + z); ConcatLaws(mid, z);
  }

  /** Swapping the part `segs[lo..hi]` for another with the same span and shards keeps the whole range. */
  lemma Replace(segs: seq<Seg>, lo: nat, hi: nat, mid: seq<Seg>, a: nat, c: nat)
    requires lo < hi <= |segs| && mid != []
    requires Chain(segs, a, c)
    requires Chain(mid, segs[lo].run.start, segs[hi - 1].run.end)
    requires Attested(mid) == Attested(segs[lo..hi])
    ensures Chain(segs[..lo] + mid + segs[hi..], a, c)
    ensures Attested(segs[..lo] + mid + segs[hi..]) == Attested(segs)
  {
    var x, y, z := segs[..lo], segs[lo..hi], segs[hi..];
    SplitInThree(segs, lo, hi);
    ReplaceChain(x, y, z, mid, a, c);
    ReplaceAttested(x, y, z, mid);
    ConcatAssoc(x, mid, z);
  }

  lemma {:induction false} ChainSpan(s: seq<Seg>, a: nat, b: nat)
    requires Chain(s, a, b)
    ensures ChainEnd(s, a) == b
    ensures s != [] ==> a < b
  {
    if s != [] {
      ChainSpan(s[1..], s[0].run.end, b);
    }
  }

  // Positions in a chain.

  /** Labels increase along the list. */
  lemma {:induction false} ChainOrdered(s: seq<Seg>, a: nat, b: nat, i: nat)
    requires Chain(s, a, b) && i < |s|
    ensures a <= s[i].run.start < s[i].run.end <= b
    ensures i == 0 ==> s[i].run.start == a
    ensures i == |s| - 1 ==> s[i].run.end == b
    ensures forall j :: i < j < |s| ==> s[i].run.end <= s[j].run.start
    ensures i + 1 < |s| ==> s[i].run.end == s[i + 1].run.start
  {
    ChainSpan(s, a, b);
    if i == 0 {
      forall j | 0 < j < |s|
        ensures s[0].run.end <= s[j].run.start
      {
        ChainOrdered(s[1..], s[0].run.end, b, j - 1);
      }
      if |s| > 1 {
        ChainOrdered(s[1..], s[0].run.end, b, 0);
      }
    } else {
      ChainOrdered(s[1..], s[0].run.end, b, i - 1);
      forall j | i < j < |s|
        ensures s[i].run.end <= s[j].run.start
      {
        assert s[j] == s[1..][j - 1];
      }
    }
  }

  // One delivery.

  lemma OneSeg(s: Seg)
    ensures AllProofs([s]) == s.run.proofs && FlyingCount([s]) == if s.flying then 1 else 0
  {
    assert [s][1..] == [];
  }

  lemma TwoSegs(s: Seg, t: Seg)
    ensures AllProofs([s, t]) == s.run.proofs + t.run.proofs
    ensures FlyingCount([s, t]) == FlyingCount([s]) + FlyingCount([t])
  {
    assert [s, t] == [s] + [t];
    ConcatLaws([s], [t]);
    OneSeg(s);
    OneSeg(t);
  }

  lemma AllProofsOfPart(segs: seq<Seg>, i: nat)
    requires i < |segs|
    ensures AllProofs(segs[i..i + 1]) == segs[i].run.proofs
    ensures i + 1 < |segs| ==> AllProofs(segs[i..i + 2]) == segs[i].run.proofs + segs[i + 1].run.proofs
    ensures i + 2 < |segs| ==>
              AllProofs(segs[i..i + 3]) == segs[i].run.proofs + segs[i + 1].run.proofs + segs[i + 2].run.proofs
  {
    assert segs[i..i + 1] == [segs[i]];
    OneSeg(segs[i]);
    if i + 1 < |segs| {
      assert segs[i..i + 2] == [segs[i], segs[i + 1]];
      TwoSegs(segs[i], segs[i + 1]);
    }
    if i + 2 < |segs| {
      assert segs[i..i + 3] == segs[i..i + 2] + [segs[i + 2]];
      ConcatLaws(segs[i..i + 2], [segs[i + 2]]);
      OneSeg(segs[i + 2]);
    }
  }

  /** The merged run fits its label, and exceeds the batch size only between two siblings. */
  lemma MergedFits(segs: seq<Seg>, i: nat, r: Round)
    requires Inv(segs, r) && r.Valid() && i < |segs| && segs[i].flying
    ensures var m, lo, hi := Merged(segs, i), Lo(segs, i), Hi(segs, i);
            && hi - lo <= |m.proofs| < 2 * r.batch
            && m.start + |m.proofs| <= m.end
            && (|m.proofs| > r.batch ==> hi - lo == 3)
            && (forall p <- m.proofs :: AritiesWithin(p, r.arity))
  {
    var lo, hi := Lo(segs, i), Hi(segs, i);
    AllProofsOfPart(segs, lo);
    ChainOrdered(segs, 0, r.n, i);
    if lo < i {
      ChainOrdered(segs, 0, r.n, lo);
    }
    if hi > i + 1 {
      ChainOrdered(segs, 0, r.n, i + 1);
    }
    assert forall k :: lo <= k < hi ==> SegOk(segs[k], r);
  }

  lemma SettleKeeps(m: Run, r: Round)
    requires r.Valid() && 2 <= |m.proofs| < 2 * r.batch && m.start + |m.proofs| <= m.end
    requires forall p <- m.proofs :: AritiesWithin(p, r.arity)
    ensures var mid := Settle(m, r);
            && mid != [] && Chain(mid, m.start, m.end) && AllOk(mid, r) && NoTouch(mid)
            && Attested(mid) == Frontiers(m.proofs)
            && (|m.proofs| > r.batch ==> mid[0].flying)
            && (|m.proofs| <= r.batch ==> |mid| == 1)
  {
    var mid := Settle(m, r);
    if |m.proofs| > r.batch {
      var c := Compress(m.proofs[..r.batch]);
      assert m.proofs == m.proofs[..r.batch] + m.proofs[r.batch..];
      assert forall p <- m.proofs[..r.batch] :: p in m.proofs;
      assert forall p <- m.proofs[r.batch..] :: p in m.proofs;
      assert AritiesWithin(c, r.arity);
      FrontiersConcat(m.proofs[..r.batch], m.proofs[r.batch..]);
      TwoSegs(mid[0], mid[1]);
      FrontiersConcat([c], m.proofs[r.batch..]);
      SingleFrontier(c);
    } else if |m.proofs| == r.batch || FullLabel(m, r.n) {
      OneSeg(mid[0]);
      SingleFrontier(Compress(m.proofs));
    } else {
      OneSeg(mid[0]);
    }
  }

  lemma SingleFrontier(p: Proof)
    ensures Frontiers([p]) == Frontier(p)
    ensures Works([p]) == Work(p)
    ensures TasksOf([p]) == Tasks(p)
  {
    assert [p][1..] == [];
  }

  /** The replacement for the delivered part keeps its span and shards and is well formed. */
  lemma MiddleKeeps(segs: seq<Seg>, i: nat, r: Round)
    requires Inv(segs, r) && r.Valid()
    requires i < |segs| && segs[i].flying && !FullLabel(segs[i].run, r.n)
    ensures var lo, hi, mid := Lo(segs, i), Hi(segs, i), Middle(segs, i, r);
            && mid != [] && Chain(mid, segs[lo].run.start, segs[hi - 1].run.end)
            && AllOk(mid, r) && NoTouch(mid)
            && Attested(mid) == Attested(segs[lo..hi])
            && (lo == 0 || segs[lo - 1].flying)
            && (hi == |segs| || segs[hi].flying)
  {
    var lo, hi := Lo(segs, i), Hi(segs, i);
    MergedFits(segs, i, r);
    if hi - lo == 1 {
      AloneKeeps(segs, i, r);
    } else {
      SettleKeeps(Merged(segs, i), r);
    }
    Borders(segs, i);
  }

  /** Next to the delivered part nothing is parked. */
  lemma Borders(segs: seq<Seg>, i: nat)
    requires NoTouch(segs) && i < |segs| && segs[i].flying
    ensures Lo(segs, i) == 0 || segs[Lo(segs, i) - 1].flying
    ensures Hi(segs, i) == |segs| || segs[Hi(segs, i)].flying
  {
  }

  /** Parking a lone segment that does not carry the full label. */
  lemma AloneKeeps(segs: seq<Seg>, i: nat, r: Round)
    requires Inv(segs, r) && r.Valid()
    requires i < |segs| && segs[i].flying && !FullLabel(segs[i].run, r.n)
    ensures var alone := [Seg(segs[i].run, false)];
            && Chain(alone, segs[i].run.start, segs[i].run.end) && AllOk(alone, r)
            && Attested(alone) == Attested(segs[i..i + 1])
  {
    ChainOrdered(segs, 0, r.n, i);
    assert SegOk(segs[i], r);
    assert segs[i..i + 1] == [segs[i]];
    OneSeg(segs[i]);
    OneSeg(Seg(segs[i].run, false));
  }

  /** Every delivery keeps the invariant. */
  lemma DeliverKeepsInv(segs: seq<Seg>, i: nat, r: Round)
    requires Inv(segs, r) && r.Valid()
    requires i < |segs| && segs[i].flying && !FullLabel(segs[i].run, r.n)
    ensures Inv(Deliver(segs, i, r), r)
  {
    var lo, hi, mid := Lo(segs, i), Hi(segs, i), Middle(segs, i, r);
    MiddleKeeps(segs, i, r);
    Replace(segs, lo, hi, mid, 0, r.n);
    NoTouchSplice(segs, lo, hi, mid);
    AllOkConcat(segs[..lo], mid, segs[hi..], r);
  }

  lemma AllOkConcat(s: seq<Seg>, t: seq<Seg>, u: seq<Seg>, r: Round)
    requires AllOk(s, r) && AllOk(t, r) && AllOk(u, r)
    ensures AllOk(s + t + u, r)
  {
  }

  lemma {:induction false} InitialSlice(ps: seq<Proof>, k: nat)
    requires k <= |ps|
    ensures Chain(Initial(ps)[k..], k, |ps|)
    ensures AllProofs(Initial(ps)[k..]) == ps[k..]
    ensures FlyingCount(Initial(ps)[k..]) == |ps| - k
    decreases |ps| - k
  {
    if k < |ps| {
      InitialSlice(ps, k + 1);
      assert Initial(ps)[k..][1..] == Initial(ps)[k + 1..];
    }
  }

  lemma InitialInv(ps: seq<Proof>, r: Round)
    requires r.Valid() && r.n == |ps| && r.shards == Frontiers(ps)
    requires forall p <- ps :: AritiesWithin(p, r.arity)
    ensures Inv(Initial(ps), r)
    ensures FlyingCount(Initial(ps)) == |ps| && AllProofs(Initial(ps)) == ps
  {
    InitialSlice(ps, 0);
    assert Initial(ps)[0..] == Initial(ps) && ps[0..] == ps;
  }
}
