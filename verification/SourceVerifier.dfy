/** The verifier with the source's own curve and digest constants. */
module SourceVerifier {
  import opened Wrappers
  import opened KoalaBear
  import opened Septic
  import opened SepticContext
  import opened Curve
  import opened Digest
  import opened SepticCurve
  import opened ShardChain
  import opened ShardMachine
  import opened ShardLinks
  import opened ShardVerifier

  function SourceK(): Setting<E> {
    SourceSetting(ArithOver(FpRing()))
  }

  /** The zero digest and the start of every addition, by their coordinates. */
  lemma SourceConstants()
    ensures SourceK().zero ==
            Point(Septic(0x1414213, 0x5623730, 0x9504880, 0x1688724, 0x2096980, 0x7856967, 0x1875376),
                  Septic(2020310104, 1513506566, 1843922297, 2003644209, 805967281, 1882435203, 1623804682))
    ensures SourceK().start ==
            Point(Septic(0x1732050, 0x8075688, 0x7729352, 0x7446341, 0x5058723, 0x6694280, 0x5253810),
                  Septic(1095433104, 7540207, 1124564165, 2035506693, 11121645, 102781365, 398772161))
    ensures WitnessDummy() ==
            Point(Septic(0x2718281 + 0x1000000, 0x8284590, 0x4523536, 0x0287471, 0x3526624, 0x9775724, 0x7093699),
                  Septic(1250555984, 1592495468, 656721246, 420301347, 2125819749, 819876460, 17687681))
    ensures SourceK().C.a == Septic(45, 0, 0, 0, 0, 0, 0) && SourceK().C.b == Septic(0, 0, 0, 41, 0, 0, 0)
  {
  }

  /** The conditions of acceptance, with the digest that counts as zero written out. */
  ghost predicate LinkedTo(K: Setting<E>, zero: Point<E>, vk: VerifyingKey, verifyShard: ShardProof -> bool,
                           proof: seq<ShardProof>)
  {
    && 0 < |proof| < 16777216
    && (forall i: nat :: i < |proof| ==> LinksAt(vk, AllValues(proof), i) && RulesAt(vk, AllValues(proof), i))
    && EndsWell(proof[|proof| - 1].values)
    && Iterate(K, Some(vk.initialSum), Sums(AllValues(proof))) == Some(zero)
    && forall p <- proof :: verifyShard(p)
  }

  lemma LinkedIff(K: Setting<E>, vk: VerifyingKey, verifyShard: ShardProof -> bool, proof: seq<ShardProof>)
    ensures Linked(K, vk, verifyShard, proof) <==> LinkedTo(K, K.zero, vk, verifyShard, proof)
  {
  }

  /**
   A proof is accepted exactly when its shards are linked, keep the rules, end well and verify, and
   their sums, added to the key's from the source's start point, come to the source's zero digest.
   */
  method SourceVerify(vk: VerifyingKey, verifyShard: ShardProof -> bool, proof: seq<ShardProof>)
    returns (r: Option<Error>)
    ensures r.None? <==>
              LinkedTo(SourceK(),
                       Point(Septic(0x1414213, 0x5623730, 0x9504880, 0x1688724, 0x2096980, 0x7856967, 0x1875376),
                             Septic(2020310104, 1513506566, 1843922297, 2003644209, 805967281, 1882435203,
                                    1623804682)),
                       vk, verifyShard, proof)
    ensures Explains(SourceK(), vk, verifyShard, proof, r)
  {
    SourceConstants();
    LinkedIff(SourceK(), vk, verifyShard, proof);
    r := Verify(SourceK(), vk, verifyShard, proof);
  }
}
