/** What holds over every run of the reducer, whatever the order of delivery. */
module ReducerRuns {
  import opened RecursionProof
  import opened Segments

  // Consequences of the invariant.

  /** A state that has not returned always has a proof in flight. */
  lemma NotStuck(segs: seq<Seg>, r: Round)
    requires Inv(segs, r) && r.Valid()
    ensures exists i :: 0 <= i < |segs| && segs[i].flying
  {
    ChainSpan(segs, 0, r.n);
    assert segs != [];
    if |segs| == 1 {
      ChainOrdered(segs, 0, r.n, 0);
      assert SegOk(segs[0], r);
      assert segs[0].flying;
    } else {
      assert segs[0].flying || segs[1].flying;
    }
  }

  lemma FlyingPositive(segs: seq<Seg>, i: nat)
    requires i < |segs| && segs[i].flying
    ensures FlyingCount(segs) >= 1
  {
    assert segs == segs[..i] + ([segs[i]] + segs[i + 1..]);
    ConcatLaws(segs[..i], [segs[i]] + segs[i + 1..]);
  }

  /** Proofs held and compressions done always add up to the number of inputs. */
  lemma Conservation(segs: seq<Seg>, r: Round)
    requires Inv(segs, r)
    ensures Works(AllProofs(segs)) + |AllProofs(segs)| == |r.shards|
    ensures TasksOf(AllProofs(segs)) <= Works(AllProofs(segs))
    ensures |segs| <= |AllProofs(segs)|
  {
    ProofsOk(segs, r);
    FrontiersWork(AllProofs(segs), r.arity);
  }

  lemma {:induction false} ProofsOk(segs: seq<Seg>, r: Round)
    requires AllOk(segs, r)
    ensures forall p <- AllProofs(segs) :: AritiesWithin(p, r.arity)
    ensures |segs| <= |AllProofs(segs)|
  {
    if segs != [] {
      assert SegOk(segs[0], r);
      ProofsOk(segs[1..], r);
    }
  }

  /** A segment is labelled with the whole range exactly when its proofs attest every shard. */
  lemma FullLabelIffAllShards(segs: seq<Seg>, i: nat, r: Round)
    requires Inv(segs, r) && i < |segs|
    ensures FullLabel(segs[i].run, r.n) <==> Frontiers(segs[i].run.proofs) == r.shards
    ensures FullLabel(segs[i].run, r.n) <==> segs == [segs[i]]
  {
    var x, y, z := segs[..i], [segs[i]], segs[i + 1..];
    assert segs == x + (y + z);
    ConcatLaws(x, y + z);
    ConcatLaws(y, z);
    assert AllProofs(y) == segs[i].run.proofs;
    ProofsOk(x, r);
    ProofsOk(z, r);
    FrontiersWork(AllProofs(x), r.arity);
    FrontiersWork(AllProofs(z), r.arity);
    ChainOrdered(segs, 0, r.n, i);
    if FullLabel(segs[i].run, r.n) {
      if i > 0 {
        ChainOrdered(segs, 0, r.n, 0);
        assert false;
      }
      if i + 1 < |segs| {
        ChainOrdered(segs, 0, r.n, i + 1);
        assert false;
      }
    }
  }

  // What one delivery does to the counts.

  /** What a delivery submits to the workers, if anything. */
  ghost predicate Submits(segs: seq<Seg>, i: nat, r: Round)
    requires i < |segs|
  {
    var mid := Middle(segs, i, r);
    mid != [] && mid[0].flying
  }

  /**
   A delivery submits a batch exactly when the proof has a neighbour and, with its neighbours, makes
   a full batch or the whole range. What it submits is then the first proofs, in order.
   */
  lemma SubmitsIff(segs: seq<Seg>, i: nat, r: Round)
    requires Inv(segs, r) && r.Valid() && i < |segs| && segs[i].flying
    ensures var left := if i > 0 && !segs[i - 1].flying then segs[i - 1].run.proofs else [];
            var right := if i + 1 < |segs| && !segs[i + 1].flying then segs[i + 1].run.proofs else [];
            var start := if left != [] then segs[i - 1].run.start else segs[i].run.start;
            var end := if right != [] then segs[i + 1].run.end else segs[i].run.end;
            var all := left + segs[i].run.proofs + right;
            && (Submits(segs, i, r) <==> |all| >= 2 && (|all| >= r.batch || (start == 0 && end == r.n)))
            && (Submits(segs, i, r) ==>
                  var sent := Middle(segs, i, r)[0].run;
                  && sent.start == start
                  && sent.end == (if |all| > r.batch then start + r.batch else end)
                  && sent.proofs == [Compress(if |all| > r.batch then all[..r.batch] else all)])
  {
    MergedParts(segs, i, r);
    MergedFits(segs, i, r);
  }

  lemma MergedParts(segs: seq<Seg>, i: nat, r: Round)
    requires Inv(segs, r) && i < |segs| && segs[i].flying
    ensures var left := if i > 0 && !segs[i - 1].flying then segs[i - 1].run.proofs else [];
            var right := if i + 1 < |segs| && !segs[i + 1].flying then segs[i + 1].run.proofs else [];
            && Merged(segs, i).proofs == left + segs[i].run.proofs + right
            && (left != [] <==> ParkedAt(segs, i - 1)) && (right != [] <==> ParkedAt(segs, i + 1))
            && |segs[i].run.proofs| == 1
  {
    AllProofsOfPart(segs, Lo(segs, i));
    assert SegOk(segs[i], r);
    if ParkedAt(segs, i - 1) {
      assert SegOk(segs[i - 1], r);
    }
    if ParkedAt(segs, i + 1) {
      assert SegOk(segs[i + 1], r);
    }
  }

  lemma SettleCounts(m: Run, r: Round)
    requires r.Valid() && 2 <= |m.proofs| < 2 * r.batch
    ensures var mid := Settle(m, r);
            && mid != []
            && FlyingCount(mid) == (if mid[0].flying then 1 else 0)
            && TasksOf(AllProofs(mid)) == TasksOf(m.proofs) + FlyingCount(mid)
            && (mid[0].flying ==> |AllProofs(mid)| < |m.proofs|)
            && (!mid[0].flying ==> AllProofs(mid) == m.proofs)
  {
    var mid := Settle(m, r);
    if |m.proofs| > r.batch {
      var c := Compress(m.proofs[..r.batch]);
      assert m.proofs == m.proofs[..r.batch] + m.proofs[r.batch..];
      WorksConcat(m.proofs[..r.batch], m.proofs[r.batch..]);
      TwoSegs(mid[0], mid[1]);
      OneSeg(mid[0]);
      OneSeg(mid[1]);
      WorksConcat([c], m.proofs[r.batch..]);
      SingleFrontier(c);
    } else if |m.proofs| == r.batch || FullLabel(m, r.n) {
      OneSeg(mid[0]);
      SingleFrontier(Compress(m.proofs));
    } else {
      OneSeg(mid[0]);
    }
  }

  lemma MiddleCounts(segs: seq<Seg>, i: nat, r: Round)
    requires Inv(segs, r) && r.Valid() && i < |segs| && segs[i].flying
    ensures var part, mid := segs[Lo(segs, i)..Hi(segs, i)], Middle(segs, i, r);
            && FlyingCount(part) == 1
            && FlyingCount(mid) == (if Submits(segs, i, r) then 1 else 0)
            && TasksOf(AllProofs(mid)) == TasksOf(AllProofs(part)) + FlyingCount(mid)
            && (Submits(segs, i, r) ==> |AllProofs(mid)| < |AllProofs(part)|)
            && (!Submits(segs, i, r) ==> AllProofs(mid) == AllProofs(part))
  {
    var lo, hi := Lo(segs, i), Hi(segs, i);
    MergedFits(segs, i, r);
    PartFlying(segs, i);
    if hi - lo == 1 {
      AllProofsOfPart(segs, i);
      OneSeg(Seg(segs[i].run, false));
    } else {
      SettleCounts(Merged(segs, i), r);
    }
  }

  lemma PartFlying(segs: seq<Seg>, i: nat)
    requires i < |segs| && segs[i].flying
    ensures FlyingCount(segs[Lo(segs, i)..Hi(segs, i)]) == 1
  {
    var lo, hi := Lo(segs, i), Hi(segs, i);
    var x, z := segs[lo..i], segs[i + 1..hi];
    assert segs[lo..hi] == x + ([segs[i]] + z);
    ConcatLaws(x, [segs[i]] + z);
    ConcatLaws([segs[i]], z);
    assert x == [] || x == [segs[lo]];
    assert z == [] || z == [segs[hi - 1]];
  }

  /** A delivery consumes one in-flight proof and adds one exactly when it submits a batch. */
  lemma DeliverCounts(segs: seq<Seg>, i: nat, r: Round)
    requires Inv(segs, r) && r.Valid() && i < |segs| && segs[i].flying
    ensures var next := Deliver(segs, i, r); var t := if Submits(segs, i, r) then 1 else 0;
            && FlyingCount(next) + 1 == FlyingCount(segs) + t
            && TasksOf(AllProofs(next)) == TasksOf(AllProofs(segs)) + t
            && (t == 1 ==> |AllProofs(next)| < |AllProofs(segs)|)
            && (t == 0 ==> |AllProofs(next)| == |AllProofs(segs)|)
  {
    var lo, hi, mid := Lo(segs, i), Hi(segs, i), Middle(segs, i, r);
    var x, y, z := segs[..lo], segs[lo..hi], segs[hi..];
    MiddleCounts(segs, i, r);
    assert segs == x + y + z;
    PartCounts(x, y, z);
    PartCounts(x, mid, z);
  }

  lemma PartCounts(x: seq<Seg>, y: seq<Seg>, z: seq<Seg>)
    ensures FlyingCount(x + y + z) == FlyingCount(x) + FlyingCount(y) + FlyingCount(z)
    ensures |AllProofs(x + y + z)| == |AllProofs(x)| + |AllProofs(y)| + |AllProofs(z)|
    ensures TasksOf(AllProofs(x + y + z)) == TasksOf(AllProofs(x)) + TasksOf(AllProofs(y)) + TasksOf(AllProofs(z))
  {
    ConcatLaws(x + y, z);
    ConcatLaws(x, y);
    WorksConcat(AllProofs(x) + AllProofs(y), AllProofs(z));
    WorksConcat(AllProofs(x), AllProofs(y));
  }

  /**
   Every submitted batch holds between 2 and the batch size, and is flagged complete exactly when it holds all shards.
   */
  lemma SubmittedBatch(segs: seq<Seg>, i: nat, r: Round)
    requires Inv(segs, r) && r.Valid()
    requires i < |segs| && segs[i].flying && !FullLabel(segs[i].run, r.n) && Submits(segs, i, r)
    ensures var sent := Middle(segs, i, r)[0].run;
            && |sent.proofs| == 1 && sent.proofs[0].Compress?
            && 2 <= |sent.proofs[0].children| <= r.batch
            && (FullLabel(sent, r.n) <==> Frontier(sent.proofs[0]) == r.shards)
            && (FullLabel(sent, r.n) <==> Deliver(segs, i, r) == [Seg(sent, true)])
  {
    var next, lo := Deliver(segs, i, r), Lo(segs, i);
    var sent := Middle(segs, i, r)[0].run;
    MergedFits(segs, i, r);
    DeliverKeepsInv(segs, i, r);
    assert next[lo] == Middle(segs, i, r)[0];
    FullLabelIffAllShards(next, lo, r);
    SingleFrontier(sent.proofs[0]);
    assert next[lo] == Seg(sent, true);
  }

  // Labels after a split.

  ghost predicate LabelIsCoverage(run: Run) {
    run.start <= run.end && Frontiers(run.proofs) == seq(run.end - run.start, i => run.start + i)
  }

  /** In a list that attests a range in order, a middle part attests the positions it holds. */
  lemma MiddleOfIota(x: seq<nat>, y: seq<nat>, z: seq<nat>, n: nat, k: nat)
    requires x + y + z == Iota(n) && k < |y|
    ensures y[k] == |x| + k
  {
    assert (x + y + z)[|x| + k] == y[k];
  }

  lemma AttestedParts(segs: seq<Seg>, lo: nat, hi: nat, front: seq<Proof>, rest: seq<Proof>)
    requires lo <= hi <= |segs| && AllProofs(segs[lo..hi]) == front + rest
    ensures Attested(segs) == Attested(segs[..lo]) + Frontiers(front) + (Frontiers(rest) + Attested(segs[hi..]))
  {
    var x, y, z := segs[..lo], segs[lo..hi], segs[hi..];
    SplitInThree(segs, lo, hi);
    ConcatLaws(x, y + z);
    ConcatLaws(y, z);
    FrontiersConcat(front, rest);
    ConcatAssoc(Frontiers(front), Frontiers(rest), Attested(z));
    ConcatAssoc(Attested(x), Frontiers(front), Frontiers(rest) + Attested(z));
  }

  lemma SplitAttests(segs: seq<Seg>, i: nat, r: Round, b: nat, k: nat)
    requires Attested(segs) == Iota(r.n) && i < |segs|
    requires b <= |Merged(segs, i).proofs| && k < |Frontiers(Merged(segs, i).proofs[..b])|
    ensures Frontiers(Merged(segs, i).proofs[..b])[k] == |Attested(segs[..Lo(segs, i)])| + k
  {
    var lo, hi, all := Lo(segs, i), Hi(segs, i), Merged(segs, i).proofs;
    assert all == all[..b] + all[b..];
    AttestedParts(segs, lo, hi, all[..b], all[b..]);
    MiddleOfIota(Attested(segs[..lo]), Frontiers(all[..b]), Frontiers(all[b..]) + Attested(segs[hi..]), r.n, k);
  }

  /**
   In any state of a run, a split batch is labelled with the shards it attests exactly when it
   attests one shard per proof and its label starts at the first of them.
   */
  lemma SplitLabelIff(segs: seq<Seg>, i: nat, r: Round)
    requires Inv(segs, r) && r.Valid() && r.shards == Iota(r.n)
    requires i < |segs| && segs[i].flying && |Merged(segs, i).proofs| > r.batch
    ensures var m := Merged(segs, i); var front := m.proofs[..r.batch];
            && Middle(segs, i, r)[0] == Seg(Run(m.start, m.start + r.batch, [Compress(front)]), true)
            && (LabelIsCoverage(Middle(segs, i, r)[0].run) <==>
                  |Frontiers(front)| == r.batch && |Attested(segs[..Lo(segs, i)])| == m.start)
  {
    var m := Merged(segs, i);
    var front := m.proofs[..r.batch];
    MergedFits(segs, i, r);
    SingleFrontier(Compress(front));
    forall k | 0 <= k < |Frontiers(front)|
      ensures Frontiers(front)[k] == |Attested(segs[..Lo(segs, i)])| + k
    {
      SplitAttests(segs, i, r, r.batch, k);
    }
    CoverageIff(Middle(segs, i, r)[0].run, |Attested(segs[..Lo(segs, i)])|);
  }

  lemma CoverageIff(run: Run, first: nat)
    requires run.start < run.end
    requires forall k :: 0 <= k < |Frontiers(run.proofs)| ==> Frontiers(run.proofs)[k] == first + k
    ensures LabelIsCoverage(run) <==> |Frontiers(run.proofs)| == run.end - run.start && first == run.start
  {
    var f := Frontiers(run.proofs);
    if LabelIsCoverage(run) {
      assert f[0] == run.start + 0;
    }
  }

  // Whole runs, from one first-layer proof per input.

  ghost function Leaves(n: nat): seq<Proof> {
    seq(n, i requires 0 <= i < n => Leaf(i))
  }

  ghost function FirstRound(n: nat, b: nat): Round {
    Round(n, b, b, Iota(n))
  }

  lemma {:induction false} LeafCounts(ps: seq<Proof>, k: nat)
    requires forall j :: 0 <= j < |ps| ==> ps[j] == Leaf(k + j)
    ensures |Frontiers(ps)| == |ps| && (forall j :: 0 <= j < |ps| ==> Frontiers(ps)[j] == k + j)
    ensures TasksOf(ps) == 0
  {
    if ps != [] {
      LeafCounts(ps[1..], k + 1);
    }
  }

  lemma StartInv(n: nat, b: nat)
    requires 1 <= n && 2 <= b
    ensures Inv(Initial(Leaves(n)), FirstRound(n, b))
    ensures FlyingCount(Initial(Leaves(n))) == n && TasksOf(AllProofs(Initial(Leaves(n)))) == 0
  {
    LeafCounts(Leaves(n), 0);
    assert Frontiers(Leaves(n)) == Iota(n);
    InitialInv(Leaves(n), FirstRound(n, b));
  }

  /** `states` follows from the inputs by delivering `picks`, none of them the finished proof. */
  ghost predicate IsRunFrom(ps: seq<Proof>, states: seq<seq<Seg>>, picks: seq<nat>, r: Round) {
    && |states| == |picks| + 1
    && states[0] == Initial(ps)
    && forall k :: 0 <= k < |picks| ==> StepAt(states, picks, k, r)
  }

  /** A run over `n` first-layer proofs in batches of `b`. */
  ghost predicate IsRun(states: seq<seq<Seg>>, picks: seq<nat>, n: nat, b: nat) {
    IsRunFrom(Leaves(n), states, picks, FirstRound(n, b))
  }

  /** The run has come down to one proof in flight, labelled with the whole range. */
  ghost predicate EndsIn(states: seq<seq<Seg>>, n: nat, proof: Proof) {
    states != [] && states[|states| - 1] == [Seg(Run(0, n, [proof]), true)]
  }

  /** The states end in `segs`, after a run from the inputs. */
  ghost predicate RunsTo(ps: seq<Proof>, states: seq<seq<Seg>>, picks: seq<nat>, r: Round, segs: seq<Seg>) {
    IsRunFrom(ps, states, picks, r) && states[|picks|] == segs
  }

  /** A single input is the finished proof. */
  lemma SingleRun(ps: seq<Proof>, states: seq<seq<Seg>>, picks: seq<nat>, r: Round, proof: Proof)
    requires |ps| == 1 == r.n && IsRunFrom(ps, states, picks, r) && EndsIn(states, 1, proof)
    ensures picks == [] && proof == ps[0]
  {
    assert picks != [] ==> StepAt(states, picks, 0, r);
    assert [proof][0] == Initial(ps)[0].run.proofs[0];
  }

  lemma RunSnoc(ps: seq<Proof>, states: seq<seq<Seg>>, picks: seq<nat>, r: Round, i: nat)
    requires IsRunFrom(ps, states, picks, r)
    requires var last := states[|picks|]; i < |last| && last[i].flying && !FullLabel(last[i].run, r.n)
    ensures var next := Deliver(states[|picks|], i, r); RunsTo(ps, states + [next], picks + [i], r, next)
  {
    var next, picked := states + [Deliver(states[|picks|], i, r)], picks + [i];
    forall k | 0 <= k < |picked|
      ensures StepAt(next, picked, k, r)
    {
      if k < |picks| {
        assert StepAt(states, picks, k, r);
      }
    }
  }

  ghost predicate StepAt(states: seq<seq<Seg>>, picks: seq<nat>, k: nat, r: Round)
    requires |states| == |picks| + 1 && k < |picks|
  {
    && picks[k] < |states[k]|
    && states[k][picks[k]].flying
    && !FullLabel(states[k][picks[k]].run, r.n)
    && states[k + 1] == Deliver(states[k], picks[k], r)
  }

  lemma ParkStep(segs: seq<Seg>, i: nat, r: Round)
    requires i < |segs| && segs[i].flying && !ParkedAt(segs, i - 1) && !ParkedAt(segs, i + 1)
    ensures Deliver(segs, i, r) == segs[i := Seg(segs[i].run, false)]
  {
  }

  ghost function Lone(start: nat, end: nat, p: Proof, flying: bool): Seg {
    Seg(Run(start, end, [p]), flying)
  }

  /** The states of a run over four inputs in batches of 2. */
  ghost function SplitStates(): seq<seq<Seg>> {
    var pair := Compress([Leaf(0), Leaf(1)]);
    var second, third := Lone(2, 3, Leaf(2), true), Lone(3, 4, Leaf(3), true);
    [[Lone(0, 1, Leaf(0), true), Lone(1, 2, Leaf(1), true), second, third],
     [Lone(0, 1, Leaf(0), false), Lone(1, 2, Leaf(1), true), second, third],
     [Lone(0, 2, pair, true), second, third],
     [Lone(0, 2, pair, true), second, Lone(3, 4, Leaf(3), false)],
     [Lone(0, 2, pair, false), second, Lone(3, 4, Leaf(3), false)],
     [Lone(0, 2, Compress([pair, Leaf(2)]), true), Lone(2, 4, Leaf(3), false)]]
  }

  lemma SplitSteps()
    ensures var s, r := SplitStates(), FirstRound(4, 2);
            && s[1] == Deliver(s[0], 0, r)
            && s[3] == Deliver(s[2], 2, r)
            && s[4] == Deliver(s[3], 0, r)
  {
    var s, r := SplitStates(), FirstRound(4, 2);
    ParkStep(s[0], 0, r);
    ParkStep(s[2], 2, r);
    ParkStep(s[3], 0, r);
  }

  lemma PairStep()
    ensures SplitStates()[2] == Deliver(SplitStates()[1], 1, FirstRound(4, 2))
  {
    var s := SplitStates()[1];
    AllProofsOfPart(s, 0);
    assert Merged(s, 1) == Run(0, 2, [Leaf(0), Leaf(1)]);
  }

  lemma SplitStep()
    ensures SplitStates()[5] == Deliver(SplitStates()[4], 1, FirstRound(4, 2))
  {
    var s := SplitStates()[4];
    var pair := Compress([Leaf(0), Leaf(1)]);
    AllProofsOfPart(s, 0);
    var all := [pair, Leaf(2), Leaf(3)];
    assert Merged(s, 1) == Run(0, 4, all);
    assert all[..2] == [pair, Leaf(2)] && all[2..] == [Leaf(3)];
  }

  lemma SplitFrontier()
    ensures Frontier(Compress([Compress([Leaf(0), Leaf(1)]), Leaf(2)])) == [0, 1, 2]
  {
    var pair := Compress([Leaf(0), Leaf(1)]);
    assert [Leaf(0), Leaf(1)] == [Leaf(0)] + [Leaf(1)];
    FrontiersConcat([Leaf(0)], [Leaf(1)]);
    SingleFrontier(Leaf(0)); SingleFrontier(Leaf(1)); SingleFrontier(Leaf(2));
    assert [pair, Leaf(2)] == [pair] + [Leaf(2)];
    FrontiersConcat([pair], [Leaf(2)]);
    SingleFrontier(pair);
  }

  /** A run that submits a batch attesting shards 0, 1 and 2 under the label `0..2`. */
  lemma SplitLabelExample()
    ensures IsRun(SplitStates(), [0, 1, 2, 0, 1], 4, 2)
    ensures var sent := SplitStates()[5][0];
            && sent.flying && sent.run.start == 0 && sent.run.end == 2
            && Frontiers(sent.run.proofs) == [0, 1, 2] && !LabelIsCoverage(sent.run)
  {
    var s, picks, r := SplitStates(), [0, 1, 2, 0, 1], FirstRound(4, 2);
    assert s[0] == Initial(Leaves(4));
    SplitSteps();
    PairStep();
    SplitStep();
    forall k | 0 <= k < |picks|
      ensures StepAt(s, picks, k, r)
    {
    }
    var sent := s[5][0].run;
    SplitFrontier();
    SingleFrontier(sent.proofs[0]);
    assert sent.proofs == [sent.proofs[0]];
    assert |Frontiers(sent.proofs)| == 3;
  }

  /** Safety of every run, in every order: no shard is lost, duplicated or reordered. */
  lemma {:induction false} RunKeepsInv(states: seq<seq<Seg>>, picks: seq<nat>, k: nat, n: nat, b: nat)
    requires IsRun(states, picks, n, b) && 1 <= n && 2 <= b && k <= |picks|
    ensures Inv(states[k], FirstRound(n, b))
    ensures k + FlyingCount(states[k]) == n + TasksOf(AllProofs(states[k]))
  {
    if k == 0 {
      StartInv(n, b);
    } else {
      RunKeepsInv(states, picks, k - 1, n, b);
      assert StepAt(states, picks, k - 1, FirstRound(n, b));
      DeliverKeepsInv(states[k - 1], picks[k - 1], FirstRound(n, b));
      DeliverCounts(states[k - 1], picks[k - 1], FirstRound(n, b));
    }
  }

  /** Every run ends: at most 2n - 2 proofs are delivered before the finished one. */
  lemma RunIsShort(states: seq<seq<Seg>>, picks: seq<nat>, n: nat, b: nat)
    requires IsRun(states, picks, n, b) && 1 <= n && 2 <= b
    ensures |picks| <= 2 * n - 2
  {
    var last, r := states[|picks|], FirstRound(n, b);
    RunKeepsInv(states, picks, |picks|, n, b);
    NotStuck(last, r);
    var i :| 0 <= i < |last| && last[i].flying;
    FlyingPositive(last, i);
    Conservation(last, r);
  }

  /** A run that can deliver the finished proof has nothing else left, and that proof is right. */
  lemma RunReturns(states: seq<seq<Seg>>, picks: seq<nat>, i: nat, n: nat, b: nat)
    requires IsRun(states, picks, n, b) && 1 <= n && 2 <= b
    requires var last := states[|picks|]; i < |last| && last[i].flying && FullLabel(last[i].run, n)
    ensures var last := states[|picks|];
            && last == [last[i]]
            && |last[i].run.proofs| == 1
            && Frontier(last[i].run.proofs[0]) == Iota(n)
            && AritiesWithin(last[i].run.proofs[0], b)
            && Work(last[i].run.proofs[0]) == n - 1
            && |picks| + 1 == n + Tasks(last[i].run.proofs[0])
  {
    var last, r := states[|picks|], FirstRound(n, b);
    RunKeepsInv(states, picks, |picks|, n, b);
    FullLabelIffAllShards(last, i, r);
    var p := last[i].run.proofs[0];
    assert SegOk(last[i], r);
    assert last[i].run.proofs == [p];
    SingleFrontier(p);
    FrontierWork(p, b);
    assert AllProofs(last) == [p];
    assert FlyingCount(last) == 1;
  }

  ghost predicate SubmitsComplete(segs: seq<Seg>, i: nat, r: Round)
    requires i < |segs|
  {
    Submits(segs, i, r) && FullLabel(Middle(segs, i, r)[0].run, r.n)
  }

  /** Of all the batches a finished run submits, exactly the last is flagged complete: it makes the returned proof. */
  lemma ExactlyOneComplete(states: seq<seq<Seg>>, picks: seq<nat>, k: nat, n: nat, b: nat)
    requires IsRun(states, picks, n, b) && 2 <= n && 2 <= b && k < |picks|
    requires var last := states[|picks|]; last != [] && last[0].flying && FullLabel(last[0].run, n)
    ensures picks[k] < |states[k]|
    ensures SubmitsComplete(states[k], picks[k], FirstRound(n, b)) <==> k == |picks| - 1
    ensures k == |picks| - 1 ==> states[|picks|] == [Middle(states[k], picks[k], FirstRound(n, b))[0]]
  {
    var r := FirstRound(n, b);
    assert StepAt(states, picks, k, r);
    RunKeepsInv(states, picks, k, n, b);
    RunKeepsInv(states, picks, k + 1, n, b);
    var s, i, next := states[k], picks[k], states[k + 1];
    if Submits(s, i, r) {
      SubmittedBatch(s, i, r);
    }
    if k == |picks| - 1 {
      FullLabelIffAllShards(next, 0, r);
      assert next == s[..Lo(s, i)] + Middle(s, i, r) + s[Hi(s, i)..];
      MiddleKeeps(s, i, r);
      assert Middle(s, i, r) == next;
    } else {
      assert StepAt(states, picks, k + 1, r);
    }
  }
}
