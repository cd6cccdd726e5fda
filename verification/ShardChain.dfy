/** The verifier's passes over the public values of a list of shard proofs. */
module ShardChain {
  import opened Wrappers
  import opened KoalaBear
  import opened SepticContext
  import opened Curve
  import opened Digest

  type Limbs = seq<Fp>

  /** A word of four limbs, each meant for a byte. */
  type Word = w: seq<Fp> | |w| == 4 witness [0, 0, 0, 0]

  const ZERO_WORD: Word := [0, 0, 0, 0]
  const ZERO_COMMITTED: seq<Word> :=
    [ZERO_WORD, ZERO_WORD, ZERO_WORD, ZERO_WORD, ZERO_WORD, ZERO_WORD, ZERO_WORD, ZERO_WORD]

  /** The eight words of a committed digest. */
  type Words = ws: seq<Word> | |ws| == 8 witness ZERO_COMMITTED

  /** A value as it was before a shard and as it is after it. */
  datatype Link<+T> = Link(prev: T, next: T)

  datatype PublicValues = PublicValues(
    isExecution: Fp,
    isFirst: Fp,
    timestamp: Link<Limbs>,
    pc: Link<Limbs>,
    exitCode: Link<Fp>,
    nonce: Limbs,
    initAddr: Link<Limbs>,
    finalizeAddr: Link<Limbs>,
    initPage: Link<Limbs>,
    finalizePage: Link<Limbs>,
    untrusted: Fp,
    committed: Link<Words>,
    deferred: Link<Limbs>,
    commit: Link<Fp>,
    commitDeferred: Link<Fp>,
    sum: Point<E>)

  /** A shard proof: its public values, and the rest, which only `verifyShard` reads. */
  datatype ShardProof = ShardProof(values: PublicValues, body: nat)

  datatype VerifyingKey = VerifyingKey(pcStart: Limbs, untrusted: Fp, initialSum: Point<E>)

  datatype Error =
    | EmptyProof
    | FirstNotExecution | FirstNotFlagged | LaterFlagged
    | InvalidInitialTimestamp | TimestampStuck | TimestampMoved
    | WrongStartPc | WrongPc | PcMoved | NotHalted
    | WrongPrevExitCode | ExitCodeMoved | ExitCodeChangedTwice
    | NonceDiffers
    | WrongInitAddr | WrongFinalizeAddr | WrongInitPage | WrongFinalizePage | WrongUntrusted
    | NeverInitialized | NeverFinalized
    | WrongCommitted | WrongDeferred | WrongCommit | WrongCommitDeferred
    | NeverCommitted | NeverCommittedDeferred
    | TooManyShards
    | SumPanics | SumNotZero
    | InvalidShardProof

  const INITIAL_TIMESTAMP: Limbs := [0, 0, 0, 1]
  const HALT_PC: Limbs := [1, 0, 0]
  const ZERO3: Limbs := [0, 0, 0]
  const ZERO8: Limbs := [0, 0, 0, 0, 0, 0, 0, 0]
  const MAX_SHARDS: nat := 16777216

  // What each pass checks of one shard, given what the shard before it left.

  function FirstCheck(first: bool, v: PublicValues): Option<Error> {
    if first && v.isExecution != 1 then Some(FirstNotExecution)
    else if first && v.isFirst != 1 then Some(FirstNotFlagged)
    else if !first && v.isFirst != 0 then Some(LaterFlagged)
    else None
  }

  function TimestampCheck(before: Limbs, v: PublicValues): Option<Error> {
    if v.timestamp.prev != before then Some(InvalidInitialTimestamp)
    else if v.isExecution != 0 && v.timestamp.prev == v.timestamp.next then Some(TimestampStuck)
    else if v.isExecution != 1 && v.timestamp.prev != v.timestamp.next then Some(TimestampMoved)
    else None
  }

  function PcCheck(first: bool, before: Limbs, v: PublicValues): Option<Error> {
    if v.pc.prev != before then Some(if first then WrongStartPc else WrongPc)
    else if v.isExecution != 1 && v.pc.prev != v.pc.next then Some(PcMoved)
    else None
  }

  function ExitCodeCheck(before: Fp, v: PublicValues): Option<Error> {
    if v.exitCode.prev != before then Some(WrongPrevExitCode)
    else if v.isExecution != 1 && v.exitCode.prev != v.exitCode.next then Some(ExitCodeMoved)
    else if v.exitCode.prev != 0 && v.exitCode.prev != v.exitCode.next then Some(ExitCodeChangedTwice)
    else None
  }

  datatype Memory = Memory(initAddr: Limbs, finalizeAddr: Limbs, initPage: Limbs, finalizePage: Limbs)

  function MemoryAfter(v: PublicValues): Memory {
    Memory(v.initAddr.next, v.finalizeAddr.next, v.initPage.next, v.finalizePage.next)
  }

  function MemoryCheck(vk: VerifyingKey, before: Memory, v: PublicValues): Option<Error> {
    if v.initAddr.prev != before.initAddr then Some(WrongInitAddr)
    else if v.finalizeAddr.prev != before.finalizeAddr then Some(WrongFinalizeAddr)
    else if v.initPage.prev != before.initPage then Some(WrongInitPage)
    else if v.finalizePage.prev != before.finalizePage then Some(WrongFinalizePage)
    else if v.untrusted != vk.untrusted then Some(WrongUntrusted)
    else None
  }

  datatype Commitments = Commitments(committed: Words, deferred: Limbs, commit: Fp, commitDeferred: Fp)

  function CommitmentsAfter(v: PublicValues): Commitments {
    Commitments(v.committed.next, v.deferred.next, v.commit.next, v.commitDeferred.next)
  }

  function CommitmentsCheck(before: Commitments, v: PublicValues): Option<Error> {
    if v.committed.prev != before.committed then Some(WrongCommitted)
    else if v.deferred.prev != before.deferred then Some(WrongDeferred)
    else if v.commit.prev != before.commit then Some(WrongCommit)
    else if v.commitDeferred.prev != before.commitDeferred then Some(WrongCommitDeferred)
    else None
  }

  // The passes.

  /** A pass: what it checks of a shard in a state, the state after a shard, and what it checks at the end. */
  datatype Pass<!S> = Pass(check: (S, PublicValues) -> Option<Error>, after: (S, PublicValues) -> S,
                           last: S -> Option<Error>)

  /** A pass stops at the first error. */
  function Result<S>(p: Pass<S>, s: S, vs: seq<PublicValues>): Option<Error>
    decreases vs
  {
    if vs == [] then p.last(s)
    else var e := p.check(s, vs[0]);
         if e.Some? then e else Result(p, p.after(s, vs[0]), vs[1..])
  }

  function FirstPass(): Pass<bool> {
    Pass(FirstCheck, (first, v) => false, first => None)
  }

  function TimestampPass(): Pass<Limbs> {
    Pass(TimestampCheck, (before, v: PublicValues) => v.timestamp.next, before => None)
  }

  datatype PcState = PcState(first: bool, pc: Limbs)

  function PcPass(): Pass<PcState> {
    Pass((s: PcState, v) => PcCheck(s.first, s.pc, v),
         (s, v: PublicValues) => PcState(false, v.pc.next),
         (s: PcState) => if s.pc != HALT_PC then Some(NotHalted) else None)
  }

  function ExitCodePass(): Pass<Fp> {
    Pass(ExitCodeCheck, (before, v: PublicValues) => v.exitCode.next, before => None)
  }

  function NoncePass(): Pass<Limbs> {
    Pass((nonce, v: PublicValues) => if v.nonce != nonce then Some(NonceDiffers) else None, (nonce, v) => nonce,
      nonce => None)
  }

  function MemoryPass(vk: VerifyingKey): Pass<Memory> {
    Pass((m, v) => MemoryCheck(vk, m, v),
         (m, v) => MemoryAfter(v),
         (m: Memory) => if m.initAddr == ZERO3 then Some(NeverInitialized)
                        else if m.finalizeAddr == ZERO3 then Some(NeverFinalized)
                        else None)
  }

  function CommitmentsPass(): Pass<Commitments> {
    Pass(CommitmentsCheck,
         (c, v) => CommitmentsAfter(v),
         (c: Commitments) => if c.commit != 1 then Some(NeverCommitted)
                             else if c.commitDeferred != 1 then Some(NeverCommittedDeferred)
                             else None)
  }

  function SumPass(K: Setting<E>): Pass<Option<Point<E>>> {
    Pass((sum, v) => None,
         (sum: Option<Point<E>>, v: PublicValues) => if sum.None? then None else AddDigest(K, sum.value, v.sum),
         (sum: Option<Point<E>>) =>
           if sum.None? then Some(SumPanics) else if sum.value != K.zero then Some(SumNotZero) else None)
  }

  /** The state a pass is in before shard `i`. */
  ghost function Before<S>(p: Pass<S>, s: S, vs: seq<PublicValues>, i: nat): S
    requires i <= |vs|
  {
    if i == 0 then s else p.after(Before(p, s, vs, i - 1), vs[i - 1])
  }

  ghost predicate CleanUpTo<S>(p: Pass<S>, s: S, vs: seq<PublicValues>, n: nat) {
    n <= |vs| && forall j :: 0 <= j < n ==> p.check(Before(p, s, vs, j), vs[j]).None?
  }

  ghost predicate FailsAt<S>(p: Pass<S>, s: S, vs: seq<PublicValues>, i: nat, e: Error) {
    i < |vs| && CleanUpTo(p, s, vs, i) && p.check(Before(p, s, vs, i), vs[i]) == Some(e)
  }

  lemma {:induction false} BeforeShift<S>(p: Pass<S>, s: S, vs: seq<PublicValues>, i: nat)
    requires i < |vs|
    ensures Before(p, s, vs, i + 1) == Before(p, p.after(s, vs[0]), vs[1..], i)
    decreases i
  {
    if i > 0 {
      BeforeShift(p, s, vs, i - 1);
    } else {
      assert Before(p, s, vs, 1) == p.after(Before(p, s, vs, 0), vs[0]);
    }
  }

  lemma CleanShift<S>(p: Pass<S>, s: S, vs: seq<PublicValues>, n: nat)
    requires n < |vs| && p.check(s, vs[0]).None?
    ensures CleanUpTo(p, s, vs, n + 1) <==> CleanUpTo(p, p.after(s, vs[0]), vs[1..], n)
  {
    forall j | 0 <= j < n
      ensures p.check(Before(p, s, vs, j + 1), vs[j + 1]) ==
              p.check(Before(p, p.after(s, vs[0]), vs[1..], j), vs[1..][j])
    {
      BeforeShift(p, s, vs, j);
    }
    if CleanUpTo(p, p.after(s, vs[0]), vs[1..], n) {
      forall j | 0 <= j < n + 1
        ensures p.check(Before(p, s, vs, j), vs[j]).None?
      {
        if j > 0 {
          BeforeShift(p, s, vs, j - 1);
        }
      }
    }
    if CleanUpTo(p, s, vs, n + 1) {
      forall j | 0 <= j < n
        ensures p.check(Before(p, p.after(s, vs[0]), vs[1..], j), vs[1..][j]).None?
      {
        BeforeShift(p, s, vs, j);
      }
    }
  }

  lemma FailsNext<S>(p: Pass<S>, s: S, vs: seq<PublicValues>, i: nat, e: Error)
    requires i + 1 < |vs| && p.check(s, vs[0]).None?
    ensures FailsAt(p, s, vs, i + 1, e) <==> FailsAt(p, p.after(s, vs[0]), vs[1..], i, e)
  {
    CleanShift(p, s, vs, i);
    BeforeShift(p, s, vs, i);
  }

  /** A shard is the first to fail with this error, or no shard fails and the end does. */
  ghost predicate Reports<S>(p: Pass<S>, s: S, vs: seq<PublicValues>, e: Error) {
    || (exists i: nat :: FailsAt(p, s, vs, i, e))
    || (CleanUpTo(p, s, vs, |vs|) && p.last(Before(p, s, vs, |vs|)) == Some(e))
  }

  lemma FailsShift<S>(p: Pass<S>, s: S, vs: seq<PublicValues>, e: Error)
    requires vs != [] && p.check(s, vs[0]).None?
    ensures (exists i: nat :: FailsAt(p, s, vs, i, e)) <==>
            (exists i: nat :: FailsAt(p, p.after(s, vs[0]), vs[1..], i, e))
  {
    if i: nat :| FailsAt(p, s, vs, i, e) {
      FailsNext(p, s, vs, i - 1, e);
    }
    if i: nat :| FailsAt(p, p.after(s, vs[0]), vs[1..], i, e) {
      FailsNext(p, s, vs, i, e);
    }
  }

  lemma ReportsNext<S>(p: Pass<S>, s: S, vs: seq<PublicValues>, e: Error)
    requires vs != [] && p.check(s, vs[0]).None?
    ensures Reports(p, s, vs, e) <==> Reports(p, p.after(s, vs[0]), vs[1..], e)
  {
    CleanShift(p, s, vs, |vs| - 1);
    BeforeShift(p, s, vs, |vs| - 1);
    FailsShift(p, s, vs, e);
  }

  lemma ReportsNow<S>(p: Pass<S>, s: S, vs: seq<PublicValues>, e: Error)
    requires vs != [] && p.check(s, vs[0]).Some?
    ensures Reports(p, s, vs, e) <==> p.check(s, vs[0]) == Some(e)
  {
    assert Before(p, s, vs, 0) == s;
    if p.check(s, vs[0]) == Some(e) {
      assert FailsAt(p, s, vs, 0, e);
    }
  }

  /** A pass reports exactly the first error. */
  lemma {:induction false} FirstErrorDecides<S>(p: Pass<S>, s: S, vs: seq<PublicValues>, e: Error)
    ensures Result(p, s, vs) == Some(e) <==> Reports(p, s, vs, e)
    decreases vs
  {
    if vs != [] {
      if p.check(s, vs[0]).Some? {
        ReportsNow(p, s, vs, e);
      } else {
        ReportsNext(p, s, vs, e);
        FirstErrorDecides(p, p.after(s, vs[0]), vs[1..], e);
      }
    }
  }

  function Or(e: Option<Error>, f: Option<Error>): Option<Error> {
    if e.Some? then e else f
  }

  const NO_MEMORY := Memory(ZERO3, ZERO3, ZERO3, ZERO3)
  const NO_COMMITMENTS := Commitments(ZERO_COMMITTED, ZERO8, 0, 0)

  function AllValues(proof: seq<ShardProof>): seq<PublicValues> {
    seq(|proof|, i requires 0 <= i < |proof| => proof[i].values)
  }

  /** The passes over flags, timestamps, program counters and exit codes. */
  function ExecutionVerdict(vk: VerifyingKey, vs: seq<PublicValues>): Option<Error> {
    Or(Result(FirstPass(), true, vs),
    Or(Result(TimestampPass(), INITIAL_TIMESTAMP, vs),
    Or(Result(PcPass(), PcState(true, vk.pcStart), vs),
       Result(ExitCodePass(), 0, vs))))
  }

  /** The passes over nonces, memory and commitments. */
  function StateVerdict(vk: VerifyingKey, vs: seq<PublicValues>): Option<Error>
    requires vs != []
  {
    Or(Result(NoncePass(), vs[0].nonce, vs[1..]),
    Or(Result(MemoryPass(vk), NO_MEMORY, vs),
       Result(CommitmentsPass(), NO_COMMITMENTS, vs)))
  }

  /** What is checked after the passes over the public values. */
  function LastVerdict(K: Setting<E>, vk: VerifyingKey, verifyShard: ShardProof -> bool,
                       proof: seq<ShardProof>): Option<Error>
  {
    Or(if |proof| >= MAX_SHARDS then Some(TooManyShards) else None,
    Or(Result(SumPass(K), Some(vk.initialSum), AllValues(proof)),
       if forall p <- proof :: verifyShard(p) then None else Some(InvalidShardProof)))
  }

  /** The verdict: the passes in order, the first error deciding. */
  function Verdict(K: Setting<E>, vk: VerifyingKey, verifyShard: ShardProof -> bool,
                   proof: seq<ShardProof>): Option<Error>
  {
    if proof == [] then Some(EmptyProof)
    else
      Or(ExecutionVerdict(vk, AllValues(proof)),
      Or(StateVerdict(vk, AllValues(proof)), LastVerdict(K, vk, verifyShard, proof)))
  }
}
