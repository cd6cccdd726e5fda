/** The verifier, pass by pass. */
module ShardVerifier {
  import opened Wrappers
  import opened KoalaBear
  import opened SepticContext
  import opened Digest
  import opened ShardChain
  import opened ShardMachine
  import opened ShardLinks

  method CheckFirst(vs: seq<PublicValues>) returns (r: Option<Error>)
    ensures r == Result(FirstPass(), true, vs)
  {
    for i := 0 to |vs|
      invariant Result(FirstPass(), true, vs) == Result(FirstPass(), i == 0, vs[i..])
    {
      assert vs[i..][1..] == vs[i + 1..];
      var v := vs[i];
      if i == 0 && v.isExecution != 1 {
        return Some(FirstNotExecution);
      }
      if i == 0 && v.isFirst != 1 {
        return Some(FirstNotFlagged);
      }
      if i != 0 && v.isFirst != 0 {
        return Some(LaterFlagged);
      }
    }
    return None;
  }

  method CheckTimestamps(vs: seq<PublicValues>) returns (r: Option<Error>)
    ensures r == Result(TimestampPass(), INITIAL_TIMESTAMP, vs)
  {
    var prevTimestamp := INITIAL_TIMESTAMP;
    for i := 0 to |vs|
      invariant Result(TimestampPass(), INITIAL_TIMESTAMP, vs) == Result(TimestampPass(), prevTimestamp, vs[i..])
    {
      assert vs[i..][1..] == vs[i + 1..];
      var v := vs[i];
      if v.timestamp.prev != prevTimestamp {
        return Some(InvalidInitialTimestamp);
      }
      if v.isExecution != 0 && v.timestamp.prev == v.timestamp.next {
        return Some(TimestampStuck);
      }
      if v.isExecution != 1 && v.timestamp.prev != v.timestamp.next {
        return Some(TimestampMoved);
      }
      prevTimestamp := v.timestamp.next;
    }
    return None;
  }

  method CheckPcs(pcStart: Limbs, vs: seq<PublicValues>) returns (r: Option<Error>)
    ensures r == Result(PcPass(), PcState(true, pcStart), vs)
  {
    var prevNextPc := pcStart;
    for i := 0 to |vs|
      invariant Result(PcPass(), PcState(true, pcStart), vs) == Result(PcPass(), PcState(i == 0, prevNextPc), vs[i..])
    {
      assert vs[i..][1..] == vs[i + 1..];
      var v := vs[i];
      if v.pc.prev != prevNextPc {
        if i == 0 {
          return Some(WrongStartPc);
        } else {
          return Some(WrongPc);
        }
      }
      if v.isExecution != 1 && v.pc.prev != v.pc.next {
        return Some(PcMoved);
      }
      prevNextPc := v.pc.next;
    }
    if prevNextPc != HALT_PC {
      return Some(NotHalted);
    }
    return None;
  }

  method CheckExitCodes(vs: seq<PublicValues>) returns (r: Option<Error>)
    ensures r == Result(ExitCodePass(), 0, vs)
  {
    var prevExitCode: Fp := 0;
    for i := 0 to |vs|
      invariant Result(ExitCodePass(), 0, vs) == Result(ExitCodePass(), prevExitCode, vs[i..])
    {
      assert vs[i..][1..] == vs[i + 1..];
      var v := vs[i];
      if v.exitCode.prev != prevExitCode {
        return Some(WrongPrevExitCode);
      }
      if v.isExecution != 1 && v.exitCode.prev != v.exitCode.next {
        return Some(ExitCodeMoved);
      }
      if v.exitCode.prev != 0 && v.exitCode.prev != v.exitCode.next {
        return Some(ExitCodeChangedTwice);
      }
      prevExitCode := v.exitCode.next;
    }
    return None;
  }

  method CheckNonces(vs: seq<PublicValues>) returns (r: Option<Error>)
    requires vs != []
    ensures r == Result(NoncePass(), vs[0].nonce, vs[1..])
  {
    var nonce := vs[0].nonce;
    for i := 1 to |vs|
      invariant Result(NoncePass(), nonce, vs[1..]) == Result(NoncePass(), nonce, vs[i..])
    {
      assert vs[i..][1..] == vs[i + 1..];
      if vs[i].nonce != nonce {
        return Some(NonceDiffers);
      }
    }
    return None;
  }

  method CheckMemory(vk: VerifyingKey, vs: seq<PublicValues>) returns (r: Option<Error>)
    ensures r == Result(MemoryPass(vk), NO_MEMORY, vs)
  {
    var initAddr, finalizeAddr, initPage, finalizePage := ZERO3, ZERO3, ZERO3, ZERO3;
    for i := 0 to |vs|
      invariant Result(MemoryPass(vk), NO_MEMORY, vs) ==
                Result(MemoryPass(vk), Memory(initAddr, finalizeAddr, initPage, finalizePage), vs[i..])
    {
      assert vs[i..][1..] == vs[i + 1..];
      var v := vs[i];
      if v.initAddr.prev != initAddr {
        return Some(WrongInitAddr);
      } else if v.finalizeAddr.prev != finalizeAddr {
        return Some(WrongFinalizeAddr);
      } else if v.initPage.prev != initPage {
        return Some(WrongInitPage);
      } else if v.finalizePage.prev != finalizePage {
        return Some(WrongFinalizePage);
      } else if v.untrusted != vk.untrusted {
        return Some(WrongUntrusted);
      }
      initAddr, finalizeAddr, initPage, finalizePage := v.initAddr.next, v.finalizeAddr.next, v.initPage.next,
        v.finalizePage.next;
    }
    if initAddr == ZERO3 {
      return Some(NeverInitialized);
    }
    if finalizeAddr == ZERO3 {
      return Some(NeverFinalized);
    }
    return None;
  }

  method CheckCommitments(vs: seq<PublicValues>) returns (r: Option<Error>)
    ensures r == Result(CommitmentsPass(), NO_COMMITMENTS, vs)
  {
    var committed: Words, deferred: Limbs := ZERO_COMMITTED, ZERO8;
    var commit: Fp, commitDeferred: Fp := 0, 0;
    for i := 0 to |vs|
      invariant Result(CommitmentsPass(), NO_COMMITMENTS, vs) ==
                Result(CommitmentsPass(), Commitments(committed, deferred, commit, commitDeferred), vs[i..])
    {
      assert vs[i..][1..] == vs[i + 1..];
      var v := vs[i];
      if v.committed.prev != committed {
        return Some(WrongCommitted);
      }
      if v.deferred.prev != deferred {
        return Some(WrongDeferred);
      }
      if v.commit.prev != commit {
        return Some(WrongCommit);
      }
      if v.commitDeferred.prev != commitDeferred {
        return Some(WrongCommitDeferred);
      }
      committed, deferred, commit, commitDeferred := v.committed.next, v.deferred.next, v.commit.next,
        v.commitDeferred.next;
    }
    if commit != 1 {
      return Some(NeverCommitted);
    }
    if commitDeferred != 1 {
      return Some(NeverCommittedDeferred);
    }
    return None;
  }

  method CheckSum(K: Setting<E>, vk: VerifyingKey, vs: seq<PublicValues>) returns (r: Option<Error>)
    ensures r == Result(SumPass(K), Some(vk.initialSum), vs)
  {
    var sum := Some(vk.initialSum);
    for i := 0 to |vs|
      invariant Result(SumPass(K), Some(vk.initialSum), vs) == Result(SumPass(K), sum, vs[i..])
    {
      assert vs[i..][1..] == vs[i + 1..];
      sum := if sum.None? then None else AddDigest(K, sum.value, vs[i].sum);
    }
    if sum.None? {
      return Some(SumPanics);
    }
    if sum.value != K.zero {
      return Some(SumNotZero);
    }
    return None;
  }

  method CheckShards(verifyShard: ShardProof -> bool, proof: seq<ShardProof>) returns (r: Option<Error>)
    ensures r == if forall p <- proof :: verifyShard(p) then None else Some(InvalidShardProof)
  {
    for i := 0 to |proof|
      invariant forall j :: 0 <= j < i ==> verifyShard(proof[j])
    {
      if !verifyShard(proof[i]) {
        assert proof[i] in proof;
        return Some(InvalidShardProof);
      }
    }
    return None;
  }

  /** The verifier: `None` accepts. */
  method Verify(K: Setting<E>, vk: VerifyingKey, verifyShard: ShardProof -> bool, proof: seq<ShardProof>)
    returns (r: Option<Error>)
    ensures r == Verdict(K, vk, verifyShard, proof)
    ensures r.None? <==> Accepts(K, vk, verifyShard, proof)
    ensures r.None? <==> Linked(K, vk, verifyShard, proof)
    ensures Explains(K, vk, verifyShard, proof, r)
  {
    VerdictIff(K, vk, verifyShard, proof);
    AcceptedIff(K, vk, verifyShard, proof);
    VerdictExplained(K, vk, verifyShard, proof);
    if proof == [] {
      return Some(EmptyProof);
    }
    var vs := AllValues(proof);
    r := CheckFirst(vs);
    if r.Some? { return; }
    r := CheckTimestamps(vs);
    if r.Some? { return; }
    r := CheckPcs(vk.pcStart, vs);
    if r.Some? { return; }
    r := CheckExitCodes(vs);
    if r.Some? { return; }
    r := CheckNonces(vs);
    if r.Some? { return; }
    r := CheckMemory(vk, vs);
    if r.Some? { return; }
    r := CheckCommitments(vs);
    if r.Some? { return; }
    if |proof| >= MAX_SHARDS {
      return Some(TooManyShards);
    }
    r := CheckSum(K, vk, vs);
    if r.Some? { return; }
    r := CheckShards(verifyShard, proof);
  }
}
