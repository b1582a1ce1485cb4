/**
 * Challenge generation and challenge-to-block indexing
 * (src/core/proof_generator/challenge.cpp).
 *
 * The random source is modelled as a stream: `source(k)` is the outcome of the k-th
 * call to the enclave's random generator, None when that call fails.
 */
module Challenge {
  import opened Common

  /** `generate_random_challenge`: the random source's status, 0 exactly when the draw succeeded. */
  function GenerateRandomChallenge(draw: Option<Digest>): (status: int)
    ensures status == 0 || status == -1
    ensures status == 0 <==> draw.Some?
  {
    if draw.Some? then 0 else -1
  }

  /** The first four challenge bytes read as a little-endian unsigned 32-bit value. */
  function ChallengeWord(challenge: Digest): (w: nat)
    ensures w < U32_LIMIT
  {
    assert Pow256(4) == U32_LIMIT;
    FromLittleEndian(challenge[..4])
  }

  /**
   * The requirement of `calculate_challenge_index` on its caller: the block count is
   * cast to uint32 before the modulo, so a nonzero count that is a multiple of 2^32
   * would divide by zero.
   */
  predicate IndexableCount(totalBlocks: u64)
  {
    totalBlocks == 0 || totalBlocks % U32_LIMIT != 0
  }

  /**
   * `calculate_challenge_index`: 0 when there are no blocks (no modulo is taken);
   * otherwise the challenge word reduced modulo the (32-bit truncated) block count,
   * which for a count below 2^32 is the remainder of the word divided by the count.
   */
  function ChallengeIndex(challenge: Digest, totalBlocks: u64): (idx: u32)
    requires IndexableCount(totalBlocks)
    ensures totalBlocks == 0 ==> idx == 0
    ensures totalBlocks > 0 ==>
      var modulus := totalBlocks % U32_LIMIT;
      && 0 < modulus <= totalBlocks
      && idx < modulus
      && ChallengeWord(challenge) == (ChallengeWord(challenge) / modulus) * modulus + idx
    ensures 0 < totalBlocks < U32_LIMIT ==>
      idx < totalBlocks && ChallengeWord(challenge) == (ChallengeWord(challenge) / totalBlocks) * totalBlocks + idx
  {
    if totalBlocks == 0 then 0
    else
      var modulus := totalBlocks % U32_LIMIT;
      assert totalBlocks < U32_LIMIT ==> modulus == totalBlocks;
      ChallengeWord(challenge) % modulus
  }

  /** The index depends only on the first four bytes of the challenge. */
  lemma IndexUsesFirstFourBytes(c1: Digest, c2: Digest, totalBlocks: u64)
    requires IndexableCount(totalBlocks)
    requires c1[..4] == c2[..4]
    ensures ChallengeIndex(c1, totalBlocks) == ChallengeIndex(c2, totalBlocks)
  {
  }

  /** The pair a successful k-th draw contributes to a batch. */
  function ChallengePair(challenge: Digest, totalBlocks: u64): (Digest, u32)
    requires IndexableCount(totalBlocks)
  {
    (challenge, ChallengeIndex(challenge, totalBlocks))
  }

  /**
   * `generate_batch_challenges`: the output starts cleared; draw `count` challenges in
   * turn, appending each with its index. The first failed draw aborts with -1, leaving
   * only the pairs produced before it.
   */
  method GenerateBatchChallenges(count: nat, totalBlocks: u64, source: nat -> Option<Digest>)
    returns (status: int, challenges: seq<(Digest, u32)>)
    requires IndexableCount(totalBlocks)
    ensures status == 0 || status == -1
    ensures status == 0 <==> forall k :: 0 <= k < count ==> source(k).Some?
    ensures status == 0 ==> |challenges| == count
    ensures status == -1 ==> |challenges| < count && source(|challenges|).None?
    ensures forall k :: 0 <= k < |challenges| ==>
      source(k).Some? && challenges[k] == ChallengePair(source(k).value, totalBlocks)
  {
    challenges := [];
    var i := 0;
    while i < count
      invariant 0 <= i <= count && |challenges| == i
      invariant forall k :: 0 <= k < i ==>
        source(k).Some? && challenges[k] == ChallengePair(source(k).value, totalBlocks)
    {
      var drawn := source(i);
      if GenerateRandomChallenge(drawn) != 0 {
        return -1, challenges;
      }
      var index := ChallengeIndex(drawn.value, totalBlocks);
      challenges := challenges + [(drawn.value, index)];
      i := i + 1;
    }
    return 0, challenges;
  }
}
