/** What an accepted list of shards looks like, shard by shard, and which fault a refused one is refused for. */
module ShardLinks {
  import opened Wrappers
  import opened SepticContext
  import opened Digest
  import opened ShardChain
  import opened ShardMachine

  // Accepted lists.

  /** Every linked value of a shard starts where the shard before it ended, and in the first shard as given. */
  ghost predicate LinksAt(vk: VerifyingKey, vs: seq<PublicValues>, i: nat)
    requires i < |vs|
  {
    ExecutionLinks(vk, vs, i) && MemoryLinks(vs, i) && CommitmentLinks(vs, i)
  }

  ghost predicate ExecutionLinks(vk: VerifyingKey, vs: seq<PublicValues>, i: nat)
    requires i < |vs|
  {
    && vs[i].timestamp.prev == (if i == 0 then INITIAL_TIMESTAMP else vs[i - 1].timestamp.next)
    && vs[i].pc.prev == (if i == 0 then vk.pcStart else vs[i - 1].pc.next)
    && vs[i].exitCode.prev == (if i == 0 then 0 else vs[i - 1].exitCode.next)
  }

  ghost predicate MemoryLinks(vs: seq<PublicValues>, i: nat)
    requires i < |vs|
  {
    && vs[i].initAddr.prev == (if i == 0 then ZERO3 else vs[i - 1].initAddr.next)
    && vs[i].finalizeAddr.prev == (if i == 0 then ZERO3 else vs[i - 1].finalizeAddr.next)
    && vs[i].initPage.prev == (if i == 0 then ZERO3 else vs[i - 1].initPage.next)
    && vs[i].finalizePage.prev == (if i == 0 then ZERO3 else vs[i - 1].finalizePage.next)
  }

  ghost predicate CommitmentLinks(vs: seq<PublicValues>, i: nat)
    requires i < |vs|
  {
    && vs[i].committed.prev == (if i == 0 then ZERO_COMMITTED else vs[i - 1].committed.next)
    && vs[i].deferred.prev == (if i == 0 then ZERO8 else vs[i - 1].deferred.next)
    && vs[i].commit.prev == (if i == 0 then 0 else vs[i - 1].commit.next)
    && vs[i].commitDeferred.prev == (if i == 0 then 0 else vs[i - 1].commitDeferred.next)
  }

  /** What is asked of each shard by itself. */
  ghost predicate RulesAt(vk: VerifyingKey, vs: seq<PublicValues>, i: nat)
    requires i < |vs|
  {
    && vs[i].isFirst == (if i == 0 then 1 else 0)
    && (i == 0 ==> vs[i].isExecution == 1)
    && (vs[i].isExecution == 0 || vs[i].isExecution == 1)
    && (vs[i].isExecution == 1 <==> vs[i].timestamp.prev != vs[i].timestamp.next)
    && (vs[i].isExecution == 0 ==> vs[i].pc.prev == vs[i].pc.next && vs[i].exitCode.prev == vs[i].exitCode.next)
    && (vs[i].exitCode.prev != 0 ==> vs[i].exitCode.prev == vs[i].exitCode.next)
    && vs[i].nonce == vs[0].nonce
    && vs[i].untrusted == vk.untrusted
  }

  /** What is asked of the last shard. */
  ghost predicate EndsWell(v: PublicValues) {
    && v.pc.next == HALT_PC
    && v.initAddr.next != ZERO3 && v.finalizeAddr.next != ZERO3
    && v.commit.next == 1 && v.commitDeferred.next == 1
  }

  // Faults.

  // What each error says is wrong with the shard at `i`, or at the end when `i` is past the last shard.

  ghost predicate FirstShardFault(vs: seq<PublicValues>, i: nat, e: Error)
    requires i <= |vs|
  {
    && i < |vs|
    && (|| (e.FirstNotExecution? && i == 0 && vs[i].isExecution != 1)
        || (e.FirstNotFlagged? && i == 0 && vs[i].isFirst != 1)
        || (e.LaterFlagged? && i != 0 && vs[i].isFirst != 0))
  }

  ghost predicate TimestampFault(vs: seq<PublicValues>, i: nat, e: Error)
    requires i <= |vs|
  {
    && i < |vs|
    && (|| (e.InvalidInitialTimestamp? &&
            vs[i].timestamp.prev != if i == 0 then INITIAL_TIMESTAMP else vs[i - 1].timestamp.next)
        || (e.TimestampStuck? && vs[i].isExecution != 0 && vs[i].timestamp.prev == vs[i].timestamp.next)
        || (e.TimestampMoved? && vs[i].isExecution != 1 && vs[i].timestamp.prev != vs[i].timestamp.next))
  }

  ghost predicate PcFault(vk: VerifyingKey, vs: seq<PublicValues>, i: nat, e: Error)
    requires vs != [] && i <= |vs|
  {
    || (e.WrongStartPc? && i == 0 && vs[i].pc.prev != vk.pcStart)
    || (e.WrongPc? && 0 < i < |vs| && vs[i].pc.prev != vs[i - 1].pc.next)
    || (e.PcMoved? && i < |vs| && vs[i].isExecution != 1 && vs[i].pc.prev != vs[i].pc.next)
    || (e.NotHalted? && i == |vs| && vs[i - 1].pc.next != HALT_PC)
  }

  ghost predicate ExitCodeFault(vs: seq<PublicValues>, i: nat, e: Error)
    requires i <= |vs|
  {
    && i < |vs|
    && (|| (e.WrongPrevExitCode? && vs[i].exitCode.prev != if i == 0 then 0 else vs[i - 1].exitCode.next)
        || (e.ExitCodeMoved? && vs[i].isExecution != 1 && vs[i].exitCode.prev != vs[i].exitCode.next)
        || (e.ExitCodeChangedTwice? && vs[i].exitCode.prev != 0 && vs[i].exitCode.prev != vs[i].exitCode.next))
  }

  ghost predicate MemoryFault(vk: VerifyingKey, vs: seq<PublicValues>, i: nat, e: Error)
    requires vs != [] && i <= |vs|
  {
    if i == |vs| then
      || (e.NeverInitialized? && vs[i - 1].initAddr.next == ZERO3)
      || (e.NeverFinalized? && vs[i - 1].finalizeAddr.next == ZERO3)
    else
      || (e.WrongInitAddr? && vs[i].initAddr.prev != if i == 0 then ZERO3 else vs[i - 1].initAddr.next)
      || (e.WrongFinalizeAddr? && vs[i].finalizeAddr.prev != if i == 0 then ZERO3 else vs[i - 1].finalizeAddr.next)
      || (e.WrongInitPage? && vs[i].initPage.prev != if i == 0 then ZERO3 else vs[i - 1].initPage.next)
      || (e.WrongFinalizePage? && vs[i].finalizePage.prev != if i == 0 then ZERO3 else vs[i - 1].finalizePage.next)
      || (e.WrongUntrusted? && vs[i].untrusted != vk.untrusted)
  }

  ghost predicate CommitmentFault(vs: seq<PublicValues>, i: nat, e: Error)
    requires vs != [] && i <= |vs|
  {
    if i == |vs| then
      || (e.NeverCommitted? && vs[i - 1].commit.next != 1)
      || (e.NeverCommittedDeferred? && vs[i - 1].commitDeferred.next != 1)
    else
      || (e.WrongCommitted? && vs[i].committed.prev != if i == 0 then ZERO_COMMITTED else vs[i - 1].committed.next)
      || (e.WrongDeferred? && vs[i].deferred.prev != if i == 0 then ZERO8 else vs[i - 1].deferred.next)
      || (e.WrongCommit? && vs[i].commit.prev != if i == 0 then 0 else vs[i - 1].commit.next)
      || (e.WrongCommitDeferred? && vs[i].commitDeferred.prev != if i == 0 then 0 else vs[i - 1].commitDeferred.next)
  }

  /** The faults that pass `k` looks for, the passes counted from 1. */
  ghost predicate Fault(vk: VerifyingKey, vs: seq<PublicValues>, k: nat, i: nat, e: Error)
    requires vs != [] && i <= |vs|
  {
    match k
    case 1 => FirstShardFault(vs, i, e)
    case 2 => TimestampFault(vs, i, e)
    case 3 => PcFault(vk, vs, i, e)
    case 4 => ExitCodeFault(vs, i, e)
    case 5 => e == NonceDiffers && i < |vs| && vs[i].nonce != vs[0].nonce
    case 6 => MemoryFault(vk, vs, i, e)
    case 7 => CommitmentFault(vs, i, e)
    case _ => false
  }

  /** The place of an error's check among those its pass makes of a shard, or at the end. */
  ghost function Turn(e: Error): nat {
    if || e.FirstNotFlagged? || e.TimestampStuck? || e.PcMoved? || e.ExitCodeMoved?
       || e.WrongFinalizeAddr? || e.WrongDeferred? || e.NeverFinalized? || e.NeverCommittedDeferred? then 1
    else if e.LaterFlagged? || e.TimestampMoved? || e.ExitCodeChangedTwice? || e.WrongInitPage? || e.WrongCommit? then 2
    else if e.WrongFinalizePage? || e.WrongCommitDeferred? then 3
    else if e.WrongUntrusted? then 4
    else 0
  }

  /** A fault of pass `k` at `i` with none of that pass checked before it at `i`. */
  ghost predicate FirstAt(vk: VerifyingKey, vs: seq<PublicValues>, k: nat, i: nat, e: Error)
    requires vs != [] && i <= |vs|
  {
    && Fault(vk, vs, k, i, e)
    && forall f :: Fault(vk, vs, k, i, f) ==> Turn(e) <= Turn(f)
  }

  ghost predicate CleanAt(vk: VerifyingKey, vs: seq<PublicValues>, k: nat, i: nat)
    requires vs != [] && i <= |vs|
  {
    forall f :: !Fault(vk, vs, k, i, f)
  }

  /** The first fault of pass `k`, shard by shard and then at the end. */
  ghost predicate FirstOfPass(vk: VerifyingKey, vs: seq<PublicValues>, k: nat, i: nat, e: Error)
    requires vs != []
  {
    && i <= |vs| && FirstAt(vk, vs, k, i, e)
    && forall j: nat :: j < i ==> CleanAt(vk, vs, k, j)
  }

  ghost predicate CleanPass(vk: VerifyingKey, vs: seq<PublicValues>, k: nat)
    requires vs != []
  {
    forall i: nat :: i <= |vs| ==> CleanAt(vk, vs, k, i)
  }

  /** The outcome of the check at `i` is the first fault there. */
  ghost predicate Tells(vk: VerifyingKey, vs: seq<PublicValues>, k: nat, i: nat, outcome: Option<Error>)
    requires vs != [] && i <= |vs|
  {
    if outcome.None? then CleanAt(vk, vs, k, i) else FirstAt(vk, vs, k, i, outcome.value)
  }

  // From checks to passes.

  ghost predicate TellsAt<S>(p: Pass<S>, s: S, vk: VerifyingKey, vs: seq<PublicValues>, k: nat, i: nat)
    requires vs != [] && i <= |vs|
  {
    if i == |vs| then Tells(vk, vs, k, i, p.last(Before(p, s, vs, i)))
    else Tells(vk, vs, k, i, p.check(Before(p, s, vs, i), vs[i]))
  }

  /** A pass whose checks tell the first fault at each place tells the first fault of all. */
  lemma PassTells<S>(p: Pass<S>, s: S, vk: VerifyingKey, vs: seq<PublicValues>, k: nat)
    requires vs != [] && forall i: nat :: i <= |vs| ==> TellsAt(p, s, vk, vs, k, i)
    ensures var r := Result(p, s, vs);
            if r.None? then CleanPass(vk, vs, k) else exists i: nat :: FirstOfPass(vk, vs, k, i, r.value)
  {
    var r := Result(p, s, vs);
    if r.Some? {
      FirstErrorDecides(p, s, vs, r.value);
      var i := ReportedAt(p, s, vs, r.value);
      forall j: nat | j < i
        ensures CleanAt(vk, vs, k, j)
      {
       assert TellsAt(p, s, vk, vs, k, j);
      }
      assert TellsAt(p, s, vk, vs, k, i);
      assert FirstOfPass(vk, vs, k, i, r.value);
    } else {
      SilentIsClean(p, s, vs);
      forall i: nat | i <= |vs|
        ensures CleanAt(vk, vs, k, i)
      {
       assert TellsAt(p, s, vk, vs, k, i);
      }
    }
  }

  /** The place at which an error is reported. */
  lemma ReportedAt<S>(p: Pass<S>, s: S, vs: seq<PublicValues>, e: Error) returns (i: nat)
    requires Reports(p, s, vs, e)
    ensures i <= |vs| && CleanUpTo(p, s, vs, i)
    ensures (if i == |vs| then p.last(Before(p, s, vs, i)) else p.check(Before(p, s, vs, i), vs[i])) == Some(e)
  {
    if j: nat :| FailsAt(p, s, vs, j, e) {
      i := j;
    } else {
      i := |vs|;
    }
  }

  /** A pass without an error had clean checks and a clean end. */
  lemma {:induction false} SilentIsClean<S>(p: Pass<S>, s: S, vs: seq<PublicValues>)
    requires Result(p, s, vs).None?
    ensures CleanUpTo(p, s, vs, |vs|) && p.last(Before(p, s, vs, |vs|)).None?
    decreases vs
  {
    if vs != [] {
      SilentIsClean(p, p.after(s, vs[0]), vs[1..]);
      CleanShift(p, s, vs, |vs| - 1);
      BeforeShift(p, s, vs, |vs| - 1);
    }
  }

  // The seven passes.

  lemma FirstTells(vk: VerifyingKey, vs: seq<PublicValues>, i: nat)
    requires vs != [] && i <= |vs|
    ensures TellsAt(FirstPass(), true, vk, vs, 1, i)
  {
  }

  lemma TimestampTells(vk: VerifyingKey, vs: seq<PublicValues>, i: nat)
    requires vs != [] && i <= |vs|
    ensures TellsAt(TimestampPass(), INITIAL_TIMESTAMP, vk, vs, 2, i)
  {
  }

  lemma PcTells(vk: VerifyingKey, vs: seq<PublicValues>, i: nat)
    requires vs != [] && i <= |vs|
    ensures TellsAt(PcPass(), PcState(true, vk.pcStart), vk, vs, 3, i)
  {
  }

  lemma ExitCodeTells(vk: VerifyingKey, vs: seq<PublicValues>, i: nat)
    requires vs != [] && i <= |vs|
    ensures TellsAt(ExitCodePass(), 0, vk, vs, 4, i)
  {
  }

  lemma MemoryTells(vk: VerifyingKey, vs: seq<PublicValues>, i: nat)
    requires vs != [] && i <= |vs|
    ensures TellsAt(MemoryPass(vk), NO_MEMORY, vk, vs, 6, i)
  {
  }

  lemma CommitmentsTells(vk: VerifyingKey, vs: seq<PublicValues>, i: nat)
    requires vs != [] && i <= |vs|
    ensures TellsAt(CommitmentsPass(), NO_COMMITMENTS, vk, vs, 7, i)
  {
  }

  /** The nonces are compared with the first shard's. */
  lemma NonceTells(vk: VerifyingKey, vs: seq<PublicValues>)
    requires vs != []
    ensures var r := Result(NoncePass(), vs[0].nonce, vs[1..]);
            if r.None? then CleanPass(vk, vs, 5) else exists i: nat :: FirstOfPass(vk, vs, 5, i, r.value)
  {
    var n, rest := vs[0].nonce, vs[1..];
    var r := Result(NoncePass(), n, rest);
    if r.Some? {
      FirstErrorDecides(NoncePass(), n, rest, r.value);
      var i := ReportedAt(NoncePass(), n, rest, r.value);
      NonceBefore(n, rest, i);
      forall j: nat | j < i
        ensures rest[j].nonce == n
      {
        NonceBefore(n, rest, j);
      }
      assert i < |rest| && rest[i] == vs[i + 1];
      forall j: nat | j < i + 1
        ensures CleanAt(vk, vs, 5, j)
      {
       assert j > 0 ==> vs[j] == rest[j - 1];
      }
      assert FirstOfPass(vk, vs, 5, i + 1, r.value);
    } else {
      SilentIsClean(NoncePass(), n, rest);
      forall i: nat | i <= |vs|
        ensures CleanAt(vk, vs, 5, i)
      {
        if 0 < i < |vs| {
          NonceBefore(n, rest, i - 1);
         assert vs[i] == rest[i - 1];
        }
      }
    }
  }

  lemma {:induction false} NonceBefore(n: Limbs, vs: seq<PublicValues>, i: nat)
    requires i <= |vs|
    ensures Before(NoncePass(), n, vs, i) == n
    decreases i
  {
    if i > 0 {
      NonceBefore(n, vs, i - 1);
    }
  }

  // The verdict.

  /** The result of pass `k`. */
  ghost function PassResult(vk: VerifyingKey, vs: seq<PublicValues>, k: nat): Option<Error>
    requires vs != [] && 1 <= k <= 7
  {
    match k
    case 1 => Result(FirstPass(), true, vs)
    case 2 => Result(TimestampPass(), INITIAL_TIMESTAMP, vs)
    case 3 => Result(PcPass(), PcState(true, vk.pcStart), vs)
    case 4 => Result(ExitCodePass(), 0, vs)
    case 5 => Result(NoncePass(), vs[0].nonce, vs[1..])
    case 6 => Result(MemoryPass(vk), NO_MEMORY, vs)
    case 7 => Result(CommitmentsPass(), NO_COMMITMENTS, vs)
  }

  /** The outcome of a pass is its first fault. */
  ghost predicate PassIs(vk: VerifyingKey, vs: seq<PublicValues>, k: nat, r: Option<Error>)
    requires vs != []
  {
    if r.None? then CleanPass(vk, vs, k) else exists i: nat :: FirstOfPass(vk, vs, k, i, r.value)
  }

  lemma FirstPassIs(vk: VerifyingKey, vs: seq<PublicValues>)
    requires vs != []
    ensures PassIs(vk, vs, 1, Result(FirstPass(), true, vs))
  {
    forall i: nat | i <= |vs|
      ensures TellsAt(FirstPass(), true, vk, vs, 1, i)
    {
      FirstTells(vk, vs, i);
    }
    PassTells(FirstPass(), true, vk, vs, 1);
  }

  lemma TimestampPassIs(vk: VerifyingKey, vs: seq<PublicValues>)
    requires vs != []
    ensures PassIs(vk, vs, 2, Result(TimestampPass(), INITIAL_TIMESTAMP, vs))
  {
    forall i: nat | i <= |vs|
      ensures TellsAt(TimestampPass(), INITIAL_TIMESTAMP, vk, vs, 2, i)
    {
      TimestampTells(vk, vs, i);
    }
    PassTells(TimestampPass(), INITIAL_TIMESTAMP, vk, vs, 2);
  }

  lemma PcPassIs(vk: VerifyingKey, vs: seq<PublicValues>)
    requires vs != []
    ensures PassIs(vk, vs, 3, Result(PcPass(), PcState(true, vk.pcStart), vs))
  {
    forall i: nat | i <= |vs|
      ensures TellsAt(PcPass(), PcState(true, vk.pcStart), vk, vs, 3, i)
    {
      PcTells(vk, vs, i);
    }
    PassTells(PcPass(), PcState(true, vk.pcStart), vk, vs, 3);
  }

  lemma ExitCodePassIs(vk: VerifyingKey, vs: seq<PublicValues>)
    requires vs != []
    ensures PassIs(vk, vs, 4, Result(ExitCodePass(), 0, vs))
  {
    forall i: nat | i <= |vs|
      ensures TellsAt(ExitCodePass(), 0, vk, vs, 4, i)
    {
      ExitCodeTells(vk, vs, i);
    }
    PassTells(ExitCodePass(), 0, vk, vs, 4);
  }

  lemma MemoryPassIs(vk: VerifyingKey, vs: seq<PublicValues>)
    requires vs != []
    ensures PassIs(vk, vs, 6, Result(MemoryPass(vk), NO_MEMORY, vs))
  {
    forall i: nat | i <= |vs|
      ensures TellsAt(MemoryPass(vk), NO_MEMORY, vk, vs, 6, i)
    {
      MemoryTells(vk, vs, i);
    }
    PassTells(MemoryPass(vk), NO_MEMORY, vk, vs, 6);
  }

  lemma CommitmentsPassIs(vk: VerifyingKey, vs: seq<PublicValues>)
    requires vs != []
    ensures PassIs(vk, vs, 7, Result(CommitmentsPass(), NO_COMMITMENTS, vs))
  {
    forall i: nat | i <= |vs|
      ensures TellsAt(CommitmentsPass(), NO_COMMITMENTS, vk, vs, 7, i)
    {
      CommitmentsTells(vk, vs, i);
    }
    PassTells(CommitmentsPass(), NO_COMMITMENTS, vk, vs, 7);
  }

  lemma AllTell(vk: VerifyingKey, vs: seq<PublicValues>, k: nat)
    requires vs != [] && 1 <= k <= 7
    ensures PassIs(vk, vs, k, PassResult(vk, vs, k))
  {
    match k
    case 1 => FirstPassIs(vk, vs);
    case 2 => TimestampPassIs(vk, vs);
    case 3 => PcPassIs(vk, vs);
    case 4 => ExitCodePassIs(vk, vs);
    case 5 => NonceTells(vk, vs);
    case 6 => MemoryPassIs(vk, vs);
    case 7 => CommitmentsPassIs(vk, vs);
  }

  // At one place the checks of a pass have different turns.

  lemma FirstShardTurns(vs: seq<PublicValues>, i: nat, e: Error, f: Error)
    requires vs != [] && i <= |vs| && FirstShardFault(vs, i, e) && FirstShardFault(vs, i, f) && Turn(e) == Turn(f)
    ensures e == f
  {
  }

  lemma TimestampTurns(vs: seq<PublicValues>, i: nat, e: Error, f: Error)
    requires vs != [] && i <= |vs| && TimestampFault(vs, i, e) && TimestampFault(vs, i, f) && Turn(e) == Turn(f)
    ensures e == f
  {
  }

  lemma PcTurns(vk: VerifyingKey, vs: seq<PublicValues>, i: nat, e: Error, f: Error)
    requires vs != [] && i <= |vs| && PcFault(vk, vs, i, e) && PcFault(vk, vs, i, f) && Turn(e) == Turn(f)
    ensures e == f
  {
  }

  lemma ExitCodeTurns(vs: seq<PublicValues>, i: nat, e: Error, f: Error)
    requires vs != [] && i <= |vs| && ExitCodeFault(vs, i, e) && ExitCodeFault(vs, i, f) && Turn(e) == Turn(f)
    ensures e == f
  {
  }

  lemma MemoryTurns(vk: VerifyingKey, vs: seq<PublicValues>, i: nat, e: Error, f: Error)
    requires vs != [] && i <= |vs| && MemoryFault(vk, vs, i, e) && MemoryFault(vk, vs, i, f) && Turn(e) == Turn(f)
    ensures e == f
  {
  }

  lemma CommitmentTurns(vs: seq<PublicValues>, i: nat, e: Error, f: Error)
    requires vs != [] && i <= |vs| && CommitmentFault(vs, i, e) && CommitmentFault(vs, i, f) && Turn(e) == Turn(f)
    ensures e == f
  {
  }

  lemma SameTurn(vk: VerifyingKey, vs: seq<PublicValues>, k: nat, i: nat, e: Error, f: Error)
    requires vs != [] && i <= |vs| && Fault(vk, vs, k, i, e) && Fault(vk, vs, k, i, f) && Turn(e) == Turn(f)
    ensures e == f
  {
    if k == 1 {
      FirstShardTurns(vs, i, e, f);
    } else if k == 2 {
      TimestampTurns(vs, i, e, f);
    } else if k == 3 {
      PcTurns(vk, vs, i, e, f);
    } else if k == 4 {
      ExitCodeTurns(vs, i, e, f);
    } else if k == 6 {
      MemoryTurns(vk, vs, i, e, f);
    } else if k == 7 {
      CommitmentTurns(vs, i, e, f);
    }
  }

  lemma FirstUnique(vk: VerifyingKey, vs: seq<PublicValues>, k: nat, i: nat, e: Error, j: nat, f: Error)
    requires vs != [] && FirstOfPass(vk, vs, k, i, e) && FirstOfPass(vk, vs, k, j, f)
    ensures i == j && e == f
  {
    assert i < j ==> CleanAt(vk, vs, k, i);
    assert j < i ==> CleanAt(vk, vs, k, j);
    SameTurn(vk, vs, k, i, e, f);
  }

  /** The first fault of pass `k`, with no fault in the passes before. */
  ghost predicate FirstFault(vk: VerifyingKey, vs: seq<PublicValues>, k: nat, i: nat, e: Error)
    requires vs != []
  {
    && 1 <= k <= 7 && FirstOfPass(vk, vs, k, i, e)
    && forall j :: 1 <= j < k ==> CleanPass(vk, vs, j)
  }

  ghost predicate Faultless(vk: VerifyingKey, vs: seq<PublicValues>)
    requires vs != []
  {
    forall k :: 1 <= k <= 7 ==> CleanPass(vk, vs, k)
  }

  /** Why a proof is accepted or refused. */
  ghost predicate Explains(K: Setting<E>, vk: VerifyingKey, verifyShard: ShardProof -> bool, proof: seq<ShardProof>,
                           r: Option<Error>)
  {
    var vs := AllValues(proof);
    if proof == [] then r == Some(EmptyProof)
    else if !Faultless(vk, vs) then r.Some? && exists k: nat, i: nat :: FirstFault(vk, vs, k, i, r.value)
    else if |proof| >= 16777216 then r == Some(TooManyShards)
    else
      var total := Iterate(K, Some(vk.initialSum), Sums(vs));
      if total.None? then r == Some(SumPanics)
      else if total.value != K.zero then r == Some(SumNotZero)
      else if exists p <- proof :: !verifyShard(p) then r == Some(InvalidShardProof)
      else r == None
  }

  /** The first of the outcomes from `k` to 7 that is an error, if any. */
  ghost function FirstOf(outcome: nat -> Option<Error>, k: nat): Option<Error>
    requires 1 <= k <= 8
    decreases 8 - k
  {
    if k == 8 then None else Or(outcome(k), FirstOf(outcome, k + 1))
  }

  lemma Regroup(outcome: nat -> Option<Error>, early: Option<Error>, late: Option<Error>, rest: Option<Error>)
    requires early == Or(outcome(1), Or(outcome(2), Or(outcome(3), outcome(4))))
    requires late == Or(outcome(5), Or(outcome(6), outcome(7)))
    ensures Or(early, Or(late, rest)) == Or(FirstOf(outcome, 1), rest)
  {
    assert FirstOf(outcome, 7) == Or(outcome(7), FirstOf(outcome, 8));
    assert FirstOf(outcome, 5) == Or(outcome(5), Or(outcome(6), FirstOf(outcome, 7)));
    assert FirstOf(outcome, 3) == Or(outcome(3), Or(outcome(4), FirstOf(outcome, 5)));
    assert FirstOf(outcome, 1) == Or(outcome(1), Or(outcome(2), FirstOf(outcome, 3)));
  }

  ghost function Outcomes(vk: VerifyingKey, vs: seq<PublicValues>): nat -> Option<Error>
    requires vs != []
  {
    k => if 1 <= k <= 7 then PassResult(vk, vs, k) else None
  }

  lemma {:induction false} FirstOfTells(vk: VerifyingKey, vs: seq<PublicValues>, outcome: nat -> Option<Error>, k: nat)
    requires vs != [] && 1 <= k <= 8 && forall j :: 1 <= j < k ==> CleanPass(vk, vs, j)
    requires forall j: nat :: 1 <= j <= 7 ==> PassIs(vk, vs, j, outcome(j))
    ensures var r := FirstOf(outcome, k);
            if r.None? then Faultless(vk, vs)
            else !Faultless(vk, vs) && exists k: nat, i: nat :: FirstFault(vk, vs, k, i, r.value)
    decreases 8 - k
  {
    if k < 8 {
      var r := outcome(k);
      assert PassIs(vk, vs, k, r);
      if r.None? {
        FirstOfTells(vk, vs, outcome, k + 1);
      } else {
        var i: nat :| FirstOfPass(vk, vs, k, i, r.value);
       assert FirstFault(vk, vs, k, i, r.value);
        FaultIsUnclean(vk, vs, k, i, r.value);
      }
    }
  }

  lemma FaultIsUnclean(vk: VerifyingKey, vs: seq<PublicValues>, k: nat, i: nat, e: Error)
    requires vs != [] && FirstOfPass(vk, vs, k, i, e)
    ensures !CleanPass(vk, vs, k)
  {
    assert !CleanAt(vk, vs, k, i);
  }

  lemma ExecutionOutcomes(vk: VerifyingKey, vs: seq<PublicValues>)
    requires vs != []
    ensures var o := Outcomes(vk, vs); ExecutionVerdict(vk, vs) == Or(o(1), Or(o(2), Or(o(3), o(4))))
  {
  }

  lemma StateOutcomes(vk: VerifyingKey, vs: seq<PublicValues>)
    requires vs != []
    ensures var o := Outcomes(vk, vs); StateVerdict(vk, vs) == Or(o(5), Or(o(6), o(7)))
  {
  }

  lemma OutcomesTell(vk: VerifyingKey, vs: seq<PublicValues>)
    requires vs != []
    ensures forall j: nat :: 1 <= j <= 7 ==> PassIs(vk, vs, j, Outcomes(vk, vs)(j))
  {
    forall j: nat | 1 <= j <= 7
      ensures PassIs(vk, vs, j, Outcomes(vk, vs)(j))
    {
      AllTell(vk, vs, j);
    }
  }

  /**
   The verdict is the first fault in the order of passes, shards and checks, then the size, the sum and the shards.
   */
  lemma VerdictExplained(K: Setting<E>, vk: VerifyingKey, verifyShard: ShardProof -> bool, proof: seq<ShardProof>)
    ensures Explains(K, vk, verifyShard, proof, Verdict(K, vk, verifyShard, proof))
  {
    if proof != [] {
      var vs, last := AllValues(proof), LastVerdict(K, vk, verifyShard, proof);
      ExecutionOutcomes(vk, vs);
      StateOutcomes(vk, vs);
      Regroup(Outcomes(vk, vs), ExecutionVerdict(vk, vs), StateVerdict(vk, vs), last);
      OutcomesTell(vk, vs);
      FirstOfTells(vk, vs, Outcomes(vk, vs), 1);
      SumPassMeaning(K, Some(vk.initialSum), vs);
    }
  }

  /** Only one outcome is explained. */
  lemma ExplainedOnce(K: Setting<E>, vk: VerifyingKey, verifyShard: ShardProof -> bool, proof: seq<ShardProof>,
                      r: Option<Error>, t: Option<Error>)
    requires Explains(K, vk, verifyShard, proof, r) && Explains(K, vk, verifyShard, proof, t)
    ensures r == t
  {
    var vs := AllValues(proof);
    if proof != [] && !Faultless(vk, vs) {
      var k: nat, i: nat :| FirstFault(vk, vs, k, i, r.value);
      var l: nat, j: nat :| FirstFault(vk, vs, l, j, t.value);
      FaultIsUnclean(vk, vs, k, i, r.value);
      FaultIsUnclean(vk, vs, l, j, t.value);
      assert k == l;
      FirstUnique(vk, vs, k, i, r.value, j, t.value);
    }
  }

  // Faultless lists.

  ghost predicate CleanShard(vk: VerifyingKey, vs: seq<PublicValues>, i: nat)
    requires vs != [] && i <= |vs|
  {
    forall k :: 1 <= k <= 7 ==> CleanAt(vk, vs, k, i)
  }

  /** A shard that is clean for a pass has none of its faults. */
  lemma NoFaults(vk: VerifyingKey, vs: seq<PublicValues>, i: nat)
    requires vs != [] && i <= |vs| && CleanShard(vk, vs, i)
    ensures forall e :: !FirstShardFault(vs, i, e)
    ensures forall e :: !TimestampFault(vs, i, e)
    ensures forall e :: !PcFault(vk, vs, i, e)
    ensures forall e :: !ExitCodeFault(vs, i, e)
    ensures i < |vs| ==> vs[i].nonce == vs[0].nonce
    ensures forall e :: !MemoryFault(vk, vs, i, e)
    ensures forall e :: !CommitmentFault(vs, i, e)
  {
    assert CleanAt(vk, vs, 1, i) && CleanAt(vk, vs, 2, i) && CleanAt(vk, vs, 3, i) && CleanAt(vk, vs, 4, i);
    assert CleanAt(vk, vs, 5, i) && CleanAt(vk, vs, 6, i) && CleanAt(vk, vs, 7, i);
    assert !Fault(vk, vs, 5, i, NonceDiffers);
    forall e
      ensures !FirstShardFault(vs, i, e) && !TimestampFault(vs, i, e) && !PcFault(vk, vs, i, e)
      ensures !ExitCodeFault(vs, i, e) && !MemoryFault(vk, vs, i, e) && !CommitmentFault(vs, i, e)
    {
      assert !Fault(vk, vs, 1, i, e) && !Fault(vk, vs, 2, i, e) && !Fault(vk, vs, 3, i, e);
      assert !Fault(vk, vs, 4, i, e) && !Fault(vk, vs, 6, i, e) && !Fault(vk, vs, 7, i, e);
    }
  }

  lemma CleanExecution(vk: VerifyingKey, vs: seq<PublicValues>, i: nat)
    requires i < |vs| && CleanShard(vk, vs, i)
    ensures ExecutionLinks(vk, vs, i)
  {
    NoFaults(vk, vs, i);
    assert !TimestampFault(vs, i, InvalidInitialTimestamp);
    assert !PcFault(vk, vs, i, WrongStartPc);
    assert !PcFault(vk, vs, i, WrongPc);
    assert !ExitCodeFault(vs, i, WrongPrevExitCode);
  }

  lemma CleanMemory(vk: VerifyingKey, vs: seq<PublicValues>, i: nat)
    requires i < |vs| && CleanShard(vk, vs, i)
    ensures MemoryLinks(vs, i)
  {
    NoFaults(vk, vs, i);
    assert !MemoryFault(vk, vs, i, WrongInitAddr);
    assert !MemoryFault(vk, vs, i, WrongFinalizeAddr);
    assert !MemoryFault(vk, vs, i, WrongInitPage);
    assert !MemoryFault(vk, vs, i, WrongFinalizePage);
  }

  lemma CleanCommitments(vk: VerifyingKey, vs: seq<PublicValues>, i: nat)
    requires i < |vs| && CleanShard(vk, vs, i)
    ensures CommitmentLinks(vs, i)
  {
    NoFaults(vk, vs, i);
    assert !CommitmentFault(vs, i, WrongCommitted);
    assert !CommitmentFault(vs, i, WrongDeferred);
    assert !CommitmentFault(vs, i, WrongCommit);
    assert !CommitmentFault(vs, i, WrongCommitDeferred);
  }

  lemma CleanRules(vk: VerifyingKey, vs: seq<PublicValues>, i: nat)
    requires i < |vs| && CleanShard(vk, vs, i)
    ensures RulesAt(vk, vs, i)
  {
    NoFaults(vk, vs, i);
    assert !FirstShardFault(vs, i, FirstNotExecution) && !FirstShardFault(vs, i, FirstNotFlagged);
    assert !FirstShardFault(vs, i, LaterFlagged) && !PcFault(vk, vs, i, PcMoved);
    assert !TimestampFault(vs, i, TimestampStuck) && !TimestampFault(vs, i, TimestampMoved);
    assert !ExitCodeFault(vs, i, ExitCodeMoved); assert !ExitCodeFault(vs, i, ExitCodeChangedTwice);
    assert !MemoryFault(vk, vs, i, WrongUntrusted);
  }

  lemma CleanEnd(vk: VerifyingKey, vs: seq<PublicValues>)
    requires vs != []
    ensures CleanShard(vk, vs, |vs|) <==> EndsWell(vs[|vs| - 1])
  {
    if CleanShard(vk, vs, |vs|) {
      NoFaults(vk, vs, |vs|);
      assert !PcFault(vk, vs, |vs|, NotHalted);
      assert !MemoryFault(vk, vs, |vs|, NeverInitialized); assert !MemoryFault(vk, vs, |vs|, NeverFinalized);
      assert !CommitmentFault(vs, |vs|, NeverCommitted); assert !CommitmentFault(vs, |vs|, NeverCommittedDeferred);
    }
  }

  lemma LinkedIsClean(vk: VerifyingKey, vs: seq<PublicValues>, i: nat)
    requires i < |vs| && LinksAt(vk, vs, i) && RulesAt(vk, vs, i)
    ensures CleanShard(vk, vs, i)
  {
  }

  lemma FaultlessShards(vk: VerifyingKey, vs: seq<PublicValues>)
    requires vs != []
    ensures Faultless(vk, vs) <==> forall i: nat :: i <= |vs| ==> CleanShard(vk, vs, i)
  {
    if Faultless(vk, vs) {
      forall i: nat, k | i <= |vs| && 1 <= k <= 7
        ensures CleanAt(vk, vs, k, i)
      {
       assert CleanPass(vk, vs, k);
      }
    }
    if forall i: nat :: i <= |vs| ==> CleanShard(vk, vs, i) {
      forall i: nat, k | i <= |vs| && 1 <= k <= 7
        ensures CleanAt(vk, vs, k, i)
      {
       assert CleanShard(vk, vs, i);
      }
    }
  }

  lemma FaultlessIff(vk: VerifyingKey, vs: seq<PublicValues>)
    requires vs != []
    ensures Faultless(vk, vs) <==>
            (forall i: nat :: i < |vs| ==> LinksAt(vk, vs, i) && RulesAt(vk, vs, i)) && EndsWell(vs[|vs| - 1])
  {
    FaultlessShards(vk, vs);
    CleanEnd(vk, vs);
    forall i: nat | i < |vs|
      ensures CleanShard(vk, vs, i) <==> LinksAt(vk, vs, i) && RulesAt(vk, vs, i)
    {
      if CleanShard(vk, vs, i) {
        CleanExecution(vk, vs, i);
        CleanMemory(vk, vs, i);
        CleanCommitments(vk, vs, i);
        CleanRules(vk, vs, i);
      }
      if LinksAt(vk, vs, i) && RulesAt(vk, vs, i) {
        LinkedIsClean(vk, vs, i);
      }
    }
  }

  /** A proof is accepted exactly when its shards are linked, keep the rules and end well, and the sums cancel. */
  ghost predicate Linked(K: Setting<E>, vk: VerifyingKey, verifyShard: ShardProof -> bool, proof: seq<ShardProof>) {
    var vs := AllValues(proof);
    && 0 < |proof| < 16777216
    && (forall i: nat :: i < |vs| ==> LinksAt(vk, vs, i) && RulesAt(vk, vs, i))
    && EndsWell(vs[|vs| - 1])
    && Iterate(K, Some(vk.initialSum), Sums(vs)) == Some(K.zero)
    && forall p <- proof :: verifyShard(p)
  }

  lemma AcceptedIff(K: Setting<E>, vk: VerifyingKey, verifyShard: ShardProof -> bool, proof: seq<ShardProof>)
    ensures Verdict(K, vk, verifyShard, proof).None? <==> Linked(K, vk, verifyShard, proof)
    ensures INITIAL_TIMESTAMP == [0, 0, 0, 1] && HALT_PC == [1, 0, 0] && ZERO3 == [0, 0, 0]
    ensures ZERO8 == seq(8, i => 0) && ZERO_COMMITTED == seq(8, i => [0, 0, 0, 0])
  {
    VerdictExplained(K, vk, verifyShard, proof);
    if proof != [] {
      FaultlessIff(vk, AllValues(proof));
    }
  }
}
