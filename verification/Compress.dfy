/** The driver: rounds of reduction with halving batch sizes, over the first-layer inputs. */
module Compress {
  import opened Wrappers
  import opened Modular
  import opened RecursionProof
  import opened Segments
  import opened ReducerRuns
  import opened InFlight
  import opened CompressTree

  /** Whether repeated halving of a batch size ends at 2 rather than skipping to 1. */
  predicate HalvesToTwo(b: nat) {
    if b < 2 then false else b == 2 || HalvesToTwo(b / 2)
  }

  /** Halving ends at 2 exactly for the sizes whose two leading bits are 10. */
  lemma {:induction false} HalvesToTwoIff(b: nat)
    ensures HalvesToTwo(b) <==> exists k: nat :: InBand(b, k)
  {
    if b == 2 {
      assert InBand(b, 0);
    } else if b > 2 {
      HalvesToTwoIff(b / 2);
      if k: nat :| InBand(b / 2, k) {
        assert InBand(b, k + 1);
      }
      if k: nat :| InBand(b, k) {
        assert InBand(b / 2, k - 1);
      }
    }
  }

  predicate InBand(b: nat, k: nat) {
    2 * Pow2(k) <= b < 3 * Pow2(k)
  }

  /** A run over `n` first-layer proofs in batches of `b` ends in this proof. */
  ghost predicate MadeByRun(proof: Proof, n: nat, b: nat) {
    exists states: seq<seq<Seg>>, picks: seq<nat> :: IsRun(states, picks, n, b) && EndsIn(states, n, proof)
  }

  /** Compresses `n` first-layer proofs; `None` stands for the `unreachable!` after the loop. */
  method CompressAll(composeBatchSize: nat, n: nat) returns (result: Option<Proof>)
    requires 1 <= n
    ensures result.Some? <==> HalvesToTwo(composeBatchSize)
    ensures result.Some? ==> Frontier(result.value) == Iota(n) && AritiesWithin(result.value, composeBatchSize)
    ensures result.Some? ==> MadeByRun(result.value, n, composeBatchSize)
  {
    var batch: nat := composeBatchSize;
    var count := n;
    ghost var ps := Leaves(n);
    var inFlight := multiset(FirstMessages(n));
    LeafCounts(ps, 0);
    assert Frontiers(ps) == Iota(n);
    assert Inputs(ps) == FirstMessages(n);
    while batch > 1
      invariant HalvesToTwo(batch) <==> HalvesToTwo(composeBatchSize)
      invariant batch <= composeBatchSize
      invariant 1 <= count == |ps| && Frontiers(ps) == Iota(n)
      invariant forall p <- ps :: AritiesWithin(p, composeBatchSize)
      invariant inFlight == multiset(Inputs(ps))
      invariant batch == composeBatchSize ==> ps == Leaves(n)
      invariant batch != composeBatchSize ==> |ps| == 1 && MadeByRun(ps[0], n, composeBatchSize)
    {
      var tree := new CompressTree(batch);
      ghost var r := Round(count, batch, composeBatchSize, Frontiers(ps));
      ghost var states, picks;
      var proof, rest;
      proof, rest, states, picks := tree.ReduceProofs(count, ps, inFlight, r);
      if batch == composeBatchSize {
        assert IsRun(states, picks, n, composeBatchSize) && EndsIn(states, n, proof);
      }
      if batch == 2 {
        return Some(proof);
      }
      SingleFrontier(proof);
      ps, count := [proof], 1;
      inFlight := rest + multiset{Message(0, 1, proof)};
      assert Inputs(ps) == [Message(0, 1, proof)];
      batch := batch / 2;
    }
    result := None;
  }

  function FirstMessages(n: nat): seq<Message> {
    seq(n, i requires 0 <= i < n => Message(i, i + 1, Leaf(i)))
  }

  // First-layer inputs.

  /** The number of chunks of at most `size` that a list of `len` is cut into. */
  function Chunks(len: nat, size: nat): nat
    requires 1 <= size
  {
    (len + size - 1) / size
  }

  /** The chunks hold the whole list, and all but the last are full. */
  lemma ChunksCover(len: nat, size: nat)
    requires 1 <= size
    ensures var k := Chunks(len, size); len <= k * size && (k >= 1 ==> (k - 1) * size < len)
  {
    var k := Chunks(len, size);
    var r := (len + size - 1) % size;
    assert len + size - 1 == size * k + r;
    assert size * k == k * size && (k - 1) * size == k * size - size;
  }

  /** The completeness flag given to the core witnesses. */
  predicate CoreIsComplete(shards: nat, deferred: nat) {
    shards == 1 && deferred == 0
  }

  predicate FlagAgrees(shards: nat, deferred: nat, size: nat)
    requires 1 <= size
  {
    CoreIsComplete(shards, deferred) <==> Chunks(deferred, size) + Chunks(shards, size) == 1
  }

  /** The core flag marks a lone first-layer proof for every input exactly when inputs are not batched. */
  lemma CoreFlagIff(size: nat)
    requires 1 <= size
    ensures (forall shards: nat, deferred: nat :: 1 <= shards ==> FlagAgrees(shards, deferred, size)) <==> size == 1
  {
    if size == 1 {
      forall shards: nat, deferred: nat | 1 <= shards
        ensures FlagAgrees(shards, deferred, size)
      {
        assert Chunks(deferred, size) == deferred && Chunks(shards, size) == shards;
      }
    } else {
      assert (2 + size - 1) / size == 1 && (0 + size - 1) / size == 0 by {
        assert 2 + size - 1 == size + 1;
      }
      assert !FlagAgrees(2, 0, size);
    }
  }

  /** The number of core witnesses flagged complete: all of them carry the same flag. */
  function CoreFlags(shards: nat, deferred: nat): nat {
    if CoreIsComplete(shards, deferred) then Chunks(shards, 1) else 0
  }

  /** The steps of a run that submit a batch flagged complete. */
  ghost function FlaggedSteps(states: seq<seq<Seg>>, picks: seq<nat>, r: Round): set<nat>
    requires |states| == |picks| + 1
  {
    set k: nat | k < |picks| && picks[k] < |states[k]| && SubmitsComplete(states[k], picks[k], r)
  }

  /**
   Of all the witnesses of a finished run, core and compress together, exactly one is flagged
   complete, and it makes the returned proof. The source indexes the first shard, so there is one.
   */
  lemma ExactlyOneFlag(states: seq<seq<Seg>>, picks: seq<nat>, n: nat, b: nat, shards: nat, deferred: nat)
    requires 1 <= shards && n == Chunks(deferred, 1) + Chunks(shards, 1) && 2 <= b && IsRun(states, picks, n, b)
    requires var last := states[|picks|]; last != [] && last[0].flying && FullLabel(last[0].run, n)
    ensures var flagged := FlaggedSteps(states, picks, FirstRound(n, b));
            && CoreFlags(shards, deferred) + |flagged| == 1
            && (n == 1 ==> picks == [] && flagged == {} && states[0] == [Seg(Run(0, 1, [Leaf(0)]), true)])
            && (n >= 2 ==>
                  var k := |picks| - 1;
                  && CoreFlags(shards, deferred) == 0 && k >= 0 && flagged == {k}
                  && picks[k] < |states[k]| && states[k + 1] == [Middle(states[k], picks[k], FirstRound(n, b))[0]])
  {
    assert Chunks(deferred, 1) == deferred && Chunks(shards, 1) == shards;
    RunIsShort(states, picks, n, b);
    if n >= 2 {
      FlaggedIsLast(states, picks, n, b);
    }
  }

  lemma FlaggedIsLast(states: seq<seq<Seg>>, picks: seq<nat>, n: nat, b: nat)
    requires IsRun(states, picks, n, b) && 2 <= n && 2 <= b
    requires var last := states[|picks|]; last != [] && last[0].flying && FullLabel(last[0].run, n)
    ensures var k := |picks| - 1;
            && k >= 0 && FlaggedSteps(states, picks, FirstRound(n, b)) == {k}
            && picks[k] < |states[k]| && states[k + 1] == [Middle(states[k], picks[k], FirstRound(n, b))[0]]
  {
    var last := |picks| - 1;
    assert picks != [] by {
      assert Initial(Leaves(n))[0].run.end == 1;
    }
    ExactlyOneComplete(states, picks, last, n, b);
    forall k: nat | k < |picks|
      ensures k in FlaggedSteps(states, picks, FirstRound(n, b)) <==> k == last
    {
      ExactlyOneComplete(states, picks, k, n, b);
    }
  }

  // The table of compress programs.

  /** If programs are built at start-up, one for each arity up to the maximum; else none. */
  ghost predicate IsTable<Program>(programs: map<nat, Program>, atStart: bool, maxArity: nat, build: nat -> Program) {
    && (forall a :: a in programs <==> atStart && 1 <= a <= maxArity)
    && (forall a :: a in programs ==> programs[a] == build(a))
  }

  method ComposePrograms<Program>(atStart: bool, maxArity: nat, build: nat -> Program)
    returns (programs: map<nat, Program>)
    ensures IsTable(programs, atStart, maxArity, build)
  {
    programs := map[];
    if atStart {
      for arity := 1 to maxArity + 1
        invariant IsTable(programs, true, arity - 1, build)
      {
        programs := programs[arity := build(arity)];
      }
    }
  }

  /** Whatever a run submits, the table holds the program for its arity exactly when it was built at start-up. */
  lemma LookupSucceeds<Program>(segs: seq<Seg>, i: nat, r: Round, programs: map<nat, Program>, atStart: bool,
                                build: nat -> Program)
    requires Inv(segs, r) && r.Valid()
    requires i < |segs| && segs[i].flying && !FullLabel(segs[i].run, r.n) && Submits(segs, i, r)
    requires IsTable(programs, atStart, r.arity, build)
    ensures var sent := Middle(segs, i, r)[0].run;
            && |sent.proofs| == 1 && sent.proofs[0].Compress?
            && var arity := |sent.proofs[0].children|;
               (arity in programs <==> atStart) && (atStart ==> programs[arity] == build(arity))
  {
    SubmittedBatch(segs, i, r);
  }
}
