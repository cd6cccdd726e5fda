/** The core arm of the SDK's proof check, which reads only the last shard before it verifies. */
module SdkVerify {
  import opened Wrappers
  import opened KoalaBear
  import opened SepticContext
  import opened Digest
  import opened ShardChain
  import opened ShardMachine
  import opened ShardLinks

  datatype SdkError = VersionMismatch(version: string) | Panic | UnexpectedExitCode(code: Fp) | InvalidPublicValues
    | Core(error: Error)

  const ANY: nat := 0xFFFFFFFF

  predicate IsAcceptedCode(status: nat, code: Fp) {
    status == ANY || status == code
  }

  /** The digest's words as bytes, each limb cut to its low byte. */
  function DigestBytes(words: seq<Word>): seq<nat> {
    if words == [] then [] else LimbBytes(words[0]) + DigestBytes(words[1..])
  }

  function LimbBytes(word: Word): seq<nat> {
    [word[0] % 256, word[1] % 256, word[2] % 256, word[3] % 256]
  }

  /** Byte `4 i + j` is the low byte of limb `j` of word `i`. */
  ghost predicate IsBytes(words: seq<Word>, bytes: seq<nat>) {
    && |bytes| == 4 * |words|
    && forall i, j :: 0 <= i < |words| && 0 <= j < 4 ==> bytes[4 * i + j] == words[i][j] % 256
  }

  lemma {:induction false} DigestBytesAt(words: seq<Word>)
    ensures IsBytes(words, DigestBytes(words))
  {
    if words != [] {
      var rest := DigestBytes(words[1..]);
      DigestBytesAt(words[1..]);
      forall i, j | 0 <= i < |words| && 0 <= j < 4
        ensures DigestBytes(words)[4 * i + j] == words[i][j] % 256
      {
        if i > 0 {
          assert rest[4 * (i - 1) + j] == words[1..][i - 1][j] % 256;
        }
      }
    }
  }

  lemma BytesUnique(words: seq<Word>, a: seq<nat>, b: seq<nat>)
    requires IsBytes(words, a) && IsBytes(words, b)
    ensures a == b
  {
    forall k | 0 <= k < |a|
      ensures a[k] == b[k]
    {
      assert a[4 * (k / 4) + k % 4] == words[k / 4][k % 4] % 256;
    }
  }

  /** Comparing with the digest's bytes is comparing byte by byte. */
  lemma BytesIff(words: seq<Word>, bytes: seq<nat>)
    ensures DigestBytes(words) == bytes <==> IsBytes(words, bytes)
  {
    DigestBytesAt(words);
    if IsBytes(words, bytes) {
      BytesUnique(words, DigestBytes(words), bytes);
    }
  }

  /** A bundle of another version is refused first; indexing the last shard of an empty proof panics. */
  function VerifyCore(K: Setting<E>, vk: VerifyingKey, verifyShard: ShardProof -> bool, proof: seq<ShardProof>,
                      version: string, bundled: string, status: nat, sha: seq<nat>, blake: seq<nat>): Option<SdkError>
  {
    if bundled != version then Some(VersionMismatch(bundled))
    else if proof == [] then Some(Panic)
    else
      var last := proof[|proof| - 1].values;
      var bytes := DigestBytes(last.committed.next);
      if !IsAcceptedCode(status, last.exitCode.next) then Some(UnexpectedExitCode(last.exitCode.next))
      else if bytes != sha && bytes != blake then Some(InvalidPublicValues)
      else var e := Verdict(K, vk, verifyShard, proof);
           if e.Some? then Some(Core(e.value)) else None
  }

  /**
   The SDK accepts exactly when the versions agree, the shards are linked, keep the rules and end well,
   their sums cancel and they verify, the status is the wildcard or the first nonzero exit code of any
   shard, and the last digest's bytes are one of the two hashes.
   */
  lemma SdkAccepts(K: Setting<E>, vk: VerifyingKey, verifyShard: ShardProof -> bool, proof: seq<ShardProof>,
                   version: string, bundled: string, status: nat, sha: seq<nat>, blake: seq<nat>)
    ensures VerifyCore(K, vk, verifyShard, proof, version, bundled, status, sha, blake).None? <==>
              && bundled == version
              && Linked(K, vk, verifyShard, proof)
              && (status == 0xFFFFFFFF || status == FirstNonzero(ExitCodes(AllValues(proof))))
              && var words := proof[|proof| - 1].values.committed.next; IsBytes(words, sha) || IsBytes(words, blake)
  {
    AcceptedIff(K, vk, verifyShard, proof);
    if proof != [] {
      var words := proof[|proof| - 1].values.committed.next;
      BytesIff(words, sha);
      BytesIff(words, blake);
      LastCode(K, vk, verifyShard, proof);
    }
  }

  /** In an accepted proof the last exit code is the first nonzero one, or zero. */
  lemma LastCode(K: Setting<E>, vk: VerifyingKey, verifyShard: ShardProof -> bool, proof: seq<ShardProof>)
    requires proof != []
    ensures Verdict(K, vk, verifyShard, proof).None? ==>
              proof[|proof| - 1].values.exitCode.next == FirstNonzero(ExitCodes(AllValues(proof)))
  {
    VerdictIff(K, vk, verifyShard, proof);
    if Accepts(K, vk, verifyShard, proof) {
      AcceptedPasses(K, vk, verifyShard, proof);
      ExitCodeLatches(AllValues(proof));
      assert AllValues(proof)[|proof| - 1] == proof[|proof| - 1].values;
    }
  }

  /** What each refusal says of the bundle. */
  lemma SdkRefuses(K: Setting<E>, vk: VerifyingKey, verifyShard: ShardProof -> bool, proof: seq<ShardProof>,
                   version: string, bundled: string, status: nat, sha: seq<nat>, blake: seq<nat>)
    ensures var r := VerifyCore(K, vk, verifyShard, proof, version, bundled, status, sha, blake);
            && (bundled != version ==> r == Some(VersionMismatch(bundled)))
            && (bundled == version && proof == [] ==> r == Some(Panic))
            && (bundled == version && proof != [] ==>
                  var last := proof[|proof| - 1].values;
                  var wrong := !IsBytes(last.committed.next, sha) && !IsBytes(last.committed.next, blake);
                  if status != 0xFFFFFFFF && status != last.exitCode.next then
                    r == Some(UnexpectedExitCode(last.exitCode.next))
                  else if wrong then r == Some(InvalidPublicValues)
                  else Linked(K, vk, verifyShard, proof) ||
                       (r.Some? && r.value.Core? && Explains(K, vk, verifyShard, proof, Some(r.value.error))))
  {
    AcceptedIff(K, vk, verifyShard, proof);
    VerdictExplained(K, vk, verifyShard, proof);
    if proof != [] {
      BytesIff(proof[|proof| - 1].values.committed.next, sha);
      BytesIff(proof[|proof| - 1].values.committed.next, blake);
    }
  }

  /** Given the in-shard rules, every digest a shard of an accepted proof committed to has the hash's bytes. */
  lemma SdkDigests(K: Setting<E>, vk: VerifyingKey, verifyShard: ShardProof -> bool, proof: seq<ShardProof>,
                   version: string, bundled: string, status: nat, sha: seq<nat>, blake: seq<nat>, i: nat)
    requires i < |proof| && forall v <- AllValues(proof) :: InShardRules(v)
    requires var v := proof[i].values; v.commit.next == 1 || v.committed.next != ZERO_COMMITTED
    ensures VerifyCore(K, vk, verifyShard, proof, version, bundled, status, sha, blake).None? ==>
              IsBytes(proof[i].values.committed.next, sha) || IsBytes(proof[i].values.committed.next, blake)
  {
    SdkAccepts(K, vk, verifyShard, proof, version, bundled, status, sha, blake);
    AcceptedIff(K, vk, verifyShard, proof);
    VerdictIff(K, vk, verifyShard, proof);
    if Accepts(K, vk, verifyShard, proof) {
      AcceptedPasses(K, vk, verifyShard, proof);
      CommitmentsLatch(NO_COMMITMENTS, AllValues(proof), i);
      assert AllValues(proof)[|proof| - 1] == proof[|proof| - 1].values;
    }
  }
}
