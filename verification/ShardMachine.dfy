/** One left-to-right run of a state machine over the shards, and what accepted lists have in common. */
module ShardMachine {
  import opened Wrappers
  import opened KoalaBear
  import opened SepticContext
  import opened Curve
  import opened Groups
  import opened Digest
  import opened DigestPanics
  import opened ShardChain

  datatype State = State(position: nat, timestamp: Limbs, pc: Limbs, exitCode: Fp, nonce: Limbs, memory: Memory,
                         commitments: Commitments)

  function Start(vk: VerifyingKey): State {
    State(0, INITIAL_TIMESTAMP, vk.pcStart, 0, [], NO_MEMORY, NO_COMMITMENTS)
  }

  /** A shard either executes, moving the clock, or leaves clock, program counter and exit code alone. */
  ghost predicate Executes(v: PublicValues) {
    if v.isExecution == 1 then v.timestamp.prev != v.timestamp.next
    else
      && v.isExecution == 0 && v.timestamp.prev == v.timestamp.next
      && v.pc.prev == v.pc.next && v.exitCode.prev == v.exitCode.next
  }

  ghost predicate CanStep(vk: VerifyingKey, s: State, v: PublicValues) {
    && Executes(v)
    && (s.position == 0 ==> v.isExecution == 1)
    && v.isFirst == (if s.position == 0 then 1 else 0)
    && v.timestamp.prev == s.timestamp && v.pc.prev == s.pc && v.exitCode.prev == s.exitCode
    && (s.exitCode != 0 ==> v.exitCode.next == s.exitCode)
    && (s.position != 0 ==> v.nonce == s.nonce)
    && Memory(v.initAddr.prev, v.finalizeAddr.prev, v.initPage.prev, v.finalizePage.prev) == s.memory
    && v.untrusted == vk.untrusted
    && Commitments(v.committed.prev, v.deferred.prev, v.commit.prev, v.commitDeferred.prev) == s.commitments
  }

  ghost function Next(s: State, v: PublicValues): State {
    State(s.position + 1, v.timestamp.next, v.pc.next, v.exitCode.next, v.nonce, MemoryAfter(v), CommitmentsAfter(v))
  }

  ghost function Run(vk: VerifyingKey, s: State, vs: seq<PublicValues>): Option<State>
    decreases vs
  {
    if vs == [] then Some(s)
    else if CanStep(vk, s, vs[0]) then Run(vk, Next(s, vs[0]), vs[1..])
    else None
  }

  ghost predicate Halted(s: State) {
    && s.pc == HALT_PC
    && s.memory.initAddr != ZERO3 && s.memory.finalizeAddr != ZERO3
    && s.commitments.commit == 1 && s.commitments.commitDeferred == 1
  }

  // The passes and the machine.

  function NoncesFrom(s: State, vs: seq<PublicValues>): Option<Error> {
    if s.position == 0 && vs != [] then Result(NoncePass(), vs[0].nonce, vs[1..]) else Result(NoncePass(), s.nonce, vs)
  }

  /** No pass finds an error from this state on. */
  ghost predicate PassesFrom(vk: VerifyingKey, s: State, vs: seq<PublicValues>) {
    && Result(FirstPass(), s.position == 0, vs).None?
    && Result(TimestampPass(), s.timestamp, vs).None?
    && Result(PcPass(), PcState(s.position == 0, s.pc), vs).None?
    && Result(ExitCodePass(), s.exitCode, vs).None?
    && NoncesFrom(s, vs).None?
    && Result(MemoryPass(vk), s.memory, vs).None?
    && Result(CommitmentsPass(), s.commitments, vs).None?
  }

  /** The checks of all passes on one shard together are one step of the machine. */
  lemma ChecksIffStep(vk: VerifyingKey, s: State, v: PublicValues)
    ensures CanStep(vk, s, v) <==>
              && FirstCheck(s.position == 0, v).None?
              && TimestampCheck(s.timestamp, v).None?
              && PcCheck(s.position == 0, s.pc, v).None?
              && ExitCodeCheck(s.exitCode, v).None?
              && (s.position != 0 ==> v.nonce == s.nonce)
              && MemoryCheck(vk, s.memory, v).None?
              && CommitmentsCheck(s.commitments, v).None?
  {
  }

  lemma PassesStep(vk: VerifyingKey, s: State, vs: seq<PublicValues>)
    requires vs != []
    ensures PassesFrom(vk, s, vs) <==> CanStep(vk, s, vs[0]) && PassesFrom(vk, Next(s, vs[0]), vs[1..])
  {
    ChecksIffStep(vk, s, vs[0]);
  }

  /** The separate passes accept exactly the lists on which the machine runs to a halted state. */
  lemma {:induction false} PassesIffRun(vk: VerifyingKey, s: State, vs: seq<PublicValues>)
    ensures PassesFrom(vk, s, vs) <==> Run(vk, s, vs).Some? && Halted(Run(vk, s, vs).value)
    decreases vs
  {
    if vs != [] {
      PassesStep(vk, s, vs);
      PassesIffRun(vk, Next(s, vs[0]), vs[1..]);
    }
  }

  ghost function Sums(vs: seq<PublicValues>): seq<Point<E>> {
    seq(|vs|, i requires 0 <= i < |vs| => vs[i].sum)
  }

  /** Acceptance as one run: the machine halts, the sums cancel, and every shard proof is valid. */
  ghost predicate Accepts(K: Setting<E>, vk: VerifyingKey, verifyShard: ShardProof -> bool, proof: seq<ShardProof>) {
    var vs := AllValues(proof);
    var end := Run(vk, Start(vk), vs);
    && 0 < |proof| < MAX_SHARDS
    && end.Some? && Halted(end.value)
    && Iterate(K, Some(vk.initialSum), Sums(vs)) == Some(K.zero)
    && forall p <- proof :: verifyShard(p)
  }

  /** The verifier accepts exactly when each of its passes does. */
  lemma VerdictPasses(K: Setting<E>, vk: VerifyingKey, verifyShard: ShardProof -> bool, proof: seq<ShardProof>)
    requires proof != []
    ensures Verdict(K, vk, verifyShard, proof).None? <==>
              && PassesFrom(vk, Start(vk), AllValues(proof))
              && |proof| < MAX_SHARDS
              && Result(SumPass(K), Some(vk.initialSum), AllValues(proof)).None?
              && forall p <- proof :: verifyShard(p)
  {
  }

  /** The verifier accepts exactly the lists the combined machine accepts. */
  lemma VerdictIff(K: Setting<E>, vk: VerifyingKey, verifyShard: ShardProof -> bool, proof: seq<ShardProof>)
    ensures Verdict(K, vk, verifyShard, proof).None? <==> Accepts(K, vk, verifyShard, proof)
  {
    if proof != [] {
      VerdictPasses(K, vk, verifyShard, proof);
      PassesIffRun(vk, Start(vk), AllValues(proof));
      SumPassMeaning(K, Some(vk.initialSum), AllValues(proof));
    }
  }

  /** What acceptance says of the passes that read exit codes and digests. */
  lemma AcceptedPasses(K: Setting<E>, vk: VerifyingKey, verifyShard: ShardProof -> bool, proof: seq<ShardProof>)
    requires Accepts(K, vk, verifyShard, proof)
    ensures proof != [] && Result(ExitCodePass(), 0, AllValues(proof)).None?
    ensures Result(CommitmentsPass(), NO_COMMITMENTS, AllValues(proof)).None?
  {
    PassesIffRun(vk, Start(vk), AllValues(proof));
  }

  // The cumulative sum.

  /** In an accepted list the values of all the shards' sums cancel the key's, in the curve's group. */
  lemma AcceptedBalances(K: Setting<E>, G: Group<Complete<E>>, vk: VerifyingKey, verifyShard: ShardProof -> bool,
                         proof: seq<ShardProof>)
    requires Fits(K, G) && G.member(Affine(vk.initialSum)) && AllOn(G, Sums(AllValues(proof)))
    ensures Verdict(K, vk, verifyShard, proof).None? ==>
              Total(G, [Value(K, G, vk.initialSum)] + Values(K, G, Sums(AllValues(proof)))) == Infinity
  {
    VerdictIff(K, vk, verifyShard, proof);
    ZeroIffBalanced(K, G, vk.initialSum, Sums(AllValues(proof)));
  }

  /**
   Rearranging the shards cannot change the outcome of the sum's pass, unless it panics, which it does
   exactly when one of its partial sums clashes with the next shard's sum.
   */
  lemma SumPassOrder(K: Setting<E>, G: Group<Complete<E>>, initial: Point<E>, vs: seq<PublicValues>,
                     ws: seq<PublicValues>)
    requires Fits(K, G) && G.member(Affine(initial)) && AllOn(G, Sums(vs)) && multiset(vs) == multiset(ws)
    ensures var r, t := Result(SumPass(K), Some(initial), vs), Result(SumPass(K), Some(initial), ws);
            && (r == t || r == Some(SumPanics) || t == Some(SumPanics))
            && (r == Some(SumPanics) <==> SomeAddClashes(K, G, Affine(initial), Sums(vs)))
  {
    IteratePanicsIff(K, G, initial, Sums(vs));
    var sum := (v: PublicValues) => v.sum;
    assert Sums(vs) == Mapped(sum, vs) && Sums(ws) == Mapped(sum, ws);
    MappedPermutes(sum, vs, ws);
    SumPassMeaning(K, Some(initial), vs);
    SumPassMeaning(K, Some(initial), ws);
    SameAllOn(G, Sums(vs), Sums(ws));
    OrderIrrelevant(K, G, initial, Sums(vs), Sums(ws));
  }

  lemma SameAllOn(G: Group<Complete<E>>, ds: seq<Point<E>>, es: seq<Point<E>>)
    requires AllOn(G, ds) && multiset(ds) == multiset(es)
    ensures AllOn(G, es)
  {
    forall d | d in es
      ensures G.member(Affine(d))
    {
      assert d in multiset(es);
    }
  }

  lemma {:induction false} SumPassMeaning(K: Setting<E>, sum: Option<Point<E>>, vs: seq<PublicValues>)
    ensures var r := Iterate(K, sum, Sums(vs));
            Result(SumPass(K), sum, vs) ==
              if r.None? then Some(SumPanics) else if r.value != K.zero then Some(SumNotZero) else None
    decreases vs
  {
    if vs != [] {
      assert Sums(vs)[1..] == Sums(vs[1..]);
      SumPassMeaning(K, if sum.None? then None else AddDigest(K, sum.value, vs[0].sum), vs[1..]);
    }
  }

  // Execution shards.

  /** In a run the execution flag is boolean and says whether the clock moved. */
  lemma {:induction false} ExecutionFlag(vk: VerifyingKey, s: State, vs: seq<PublicValues>, i: nat)
    requires Run(vk, s, vs).Some? && i < |vs|
    ensures vs[i].isExecution == if vs[i].timestamp.prev != vs[i].timestamp.next then 1 else 0
    decreases vs
  {
    if i > 0 {
      ExecutionFlag(vk, Next(s, vs[0]), vs[1..], i - 1);
    }
  }

  function Executions(vs: seq<PublicValues>): seq<PublicValues> {
    if vs == [] then []
    else if vs[0].isExecution == 1 then [vs[0]] + Executions(vs[1..])
    else Executions(vs[1..])
  }

  ghost function LastExitCode(before: Fp, vs: seq<PublicValues>): Fp {
    if vs == [] then before else vs[|vs| - 1].exitCode.next
  }

  /** The passes that follow the execution: clock, program counter with halt, exit code, first-shard flag. */
  ghost predicate ExecutionPasses(s: State, vs: seq<PublicValues>) {
    && Result(FirstPass(), s.position == 0, vs).None?
    && Result(TimestampPass(), s.timestamp, vs).None?
    && Result(PcPass(), PcState(s.position == 0, s.pc), vs).None?
    && Result(ExitCodePass(), s.exitCode, vs).None?
  }

  lemma ExecutionStep(s: State, vs: seq<PublicValues>)
    requires vs != [] && ExecutionPasses(s, vs)
    ensures ExecutionPasses(Next(s, vs[0]), vs[1..])
    ensures vs[0].isExecution != 1 ==>
              && s.position != 0 && vs[0].timestamp.next == s.timestamp
              && vs[0].pc.next == s.pc && vs[0].exitCode.next == s.exitCode
  {
  }

  lemma ExecutionCons(s: State, v: PublicValues, vs: seq<PublicValues>)
    requires ExecutionPasses(Next(s, v), vs)
    requires FirstCheck(s.position == 0, v).None? && TimestampCheck(s.timestamp, v).None?
    requires PcCheck(s.position == 0, s.pc, v).None? && ExitCodeCheck(s.exitCode, v).None?
    ensures ExecutionPasses(s, [v] + vs)
  {
    assert ([v] + vs)[1..] == vs;
  }

  ghost predicate SameExecution(s: State, t: State) {
    && (s.position == 0 <==> t.position == 0)
    && s.timestamp == t.timestamp && s.pc == t.pc && s.exitCode == t.exitCode
  }

  lemma ExecutionPassesDepend(s: State, t: State, vs: seq<PublicValues>)
    requires SameExecution(s, t) && ExecutionPasses(s, vs)
    ensures ExecutionPasses(t, vs)
  {
  }

  /** Deleting the non-execution shards keeps these passes and the exit code. */
  lemma {:induction false} ExecutionsSuffice(s: State, vs: seq<PublicValues>)
    requires ExecutionPasses(s, vs)
    ensures ExecutionPasses(s, Executions(vs))
    ensures LastExitCode(s.exitCode, Executions(vs)) == LastExitCode(s.exitCode, vs)
    decreases vs
  {
    if vs != [] {
      var t := Next(s, vs[0]);
      ExecutionStep(s, vs);
      ExecutionsSuffice(t, vs[1..]);
      if vs[0].isExecution == 1 {
        ExecutionCons(s, vs[0], Executions(vs[1..]));
      } else {
        ExecutionPassesDepend(t, s, Executions(vs[1..]));
      }
    }
  }

  /** An accepted list starts with an execution shard, so the passes hold of its execution shards alone. */
  lemma AcceptedExecutions(K: Setting<E>, vk: VerifyingKey, verifyShard: ShardProof -> bool, proof: seq<ShardProof>)
    requires Verdict(K, vk, verifyShard, proof).None?
    ensures var vs := AllValues(proof); var es := Executions(vs);
            && es != [] && es[0] == vs[0]
            && Result(FirstPass(), true, es).None? && Result(TimestampPass(), INITIAL_TIMESTAMP, es).None?
            && Result(PcPass(), PcState(true, vk.pcStart), es).None? && Result(ExitCodePass(), 0, es).None?
            && es[|es| - 1].exitCode.next == vs[|vs| - 1].exitCode.next
  {
    ExecutionsSuffice(Start(vk), AllValues(proof));
  }

  // Latching.

  ghost function FirstNonzero(codes: seq<Fp>): Fp {
    if codes == [] then 0 else if codes[0] != 0 then codes[0] else FirstNonzero(codes[1..])
  }

  ghost function ExitCodes(vs: seq<PublicValues>): seq<Fp> {
    seq(|vs|, i requires 0 <= i < |vs| => vs[i].exitCode.next)
  }

  /** Once a code is nonzero every later one equals it. */
  lemma {:induction false} ExitCodeSticks(before: Fp, vs: seq<PublicValues>, i: nat)
    requires Result(ExitCodePass(), before, vs).None? && before != 0 && i < |vs|
    ensures vs[i].exitCode.next == before
    decreases vs
  {
    if i > 0 {
      ExitCodeSticks(vs[0].exitCode.next, vs[1..], i - 1);
    }
  }

  /** Exit codes are zeros and then one constant; the last is the first nonzero one, if any. */
  lemma {:induction false} ExitCodeLatches(vs: seq<PublicValues>)
    requires Result(ExitCodePass(), 0, vs).None?
    ensures LastExitCode(0, vs) == FirstNonzero(ExitCodes(vs))
    ensures forall i, j :: 0 <= i < j < |vs| && vs[i].exitCode.next != 0 ==> vs[j].exitCode.next == vs[i].exitCode.next
  {
    if vs != [] {
      var c := vs[0].exitCode.next;
      assert ExitCodes(vs)[1..] == ExitCodes(vs[1..]);
      if c == 0 {
        ExitCodeLatches(vs[1..]);
        forall i, j | 0 <= i < j < |vs| && vs[i].exitCode.next != 0
          ensures vs[j].exitCode.next == vs[i].exitCode.next
        {
          assert vs[1..][i - 1] == vs[i] && vs[1..][j - 1] == vs[j];
        }
      } else {
        forall i | 0 < i < |vs|
          ensures vs[i].exitCode.next == c
        {
          ExitCodeSticks(c, vs[1..], i - 1);
        }
      }
    }
  }

  /** What a shard proof constrains of a digest and of the flag that says it was committed. */
  ghost predicate LatchRule<D>(v: PublicValues, zero: D, digest: Link<D>, flag: Link<Fp>) {
    && (flag.prev == 1 ==> flag.next == 1)
    && (v.isExecution != 1 || flag.prev == 1 || digest.prev != zero ==> digest.prev == digest.next)
  }

  ghost predicate InShardRules(v: PublicValues) {
    LatchRule(v, ZERO_COMMITTED, v.committed, v.commit) && LatchRule(v, ZERO8, v.deferred, v.commitDeferred)
  }

  /** Digest and flag are set: the flag is one or the digest is nonzero. */
  ghost predicate Latched(c: Commitments) {
    c.commit == 1 || c.committed != ZERO_COMMITTED
  }

  ghost predicate LatchedDeferred(c: Commitments) {
    c.commitDeferred == 1 || c.deferred != ZERO8
  }

  ghost function LastCommitments(before: Commitments, vs: seq<PublicValues>): Commitments {
    if vs == [] then before else CommitmentsAfter(vs[|vs| - 1])
  }

  lemma {:induction false} CommitmentsStick(before: Commitments, vs: seq<PublicValues>)
    requires Result(CommitmentsPass(), before, vs).None? && forall v <- vs :: InShardRules(v)
    ensures Latched(before) ==> LastCommitments(before, vs).committed == before.committed
    ensures LatchedDeferred(before) ==> LastCommitments(before, vs).deferred == before.deferred
    decreases vs
  {
    if vs != [] {
      assert InShardRules(vs[0]);
      CommitmentsStick(CommitmentsAfter(vs[0]), vs[1..]);
    }
  }

  /** The last digests are the digest of every shard at which they were nonzero or flagged as committed. */
  lemma {:induction false} CommitmentsLatch(before: Commitments, vs: seq<PublicValues>, i: nat)
    requires Result(CommitmentsPass(), before, vs).None? && i < |vs| && forall v <- vs :: InShardRules(v)
    ensures var c, last := CommitmentsAfter(vs[i]), LastCommitments(before, vs);
            && (Latched(c) ==> last.committed == c.committed)
            && (LatchedDeferred(c) ==> last.deferred == c.deferred)
    decreases vs
  {
    var c := CommitmentsAfter(vs[0]);
    if i == 0 {
      CommitmentsStick(c, vs[1..]);
    } else {
      CommitmentsLatch(c, vs[1..], i - 1);
    }
  }
}
