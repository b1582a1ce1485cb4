/**
 * Verification of segment-credential chains and spot checks of the packages behind
 * one credential (src/core/verifier/aggregate_verifier.cpp).
 *
 * The spot check's random indices and the clock readings taken before each
 * re-verification are inputs: `samples[k]` is the k-th drawn index and `clock[k]`
 * the timestamp read for it.
 */
module AggregateVerifier {
  import opened Common
  import ProofBuilder
  import SingleVerifier

  /** Tolerance on the jump from one credential's rep_high to the next one's rep_low. */
  const REP_JUMP: real := 0.001

  /** Delay tolerance, in seconds, of the spot check's re-verifications. */
  const SPOT_CHECK_DELAY: u32 := 30

  /** Default number of packages a spot check re-verifies. */
  const DEFAULT_CHECK_COUNT: nat := 3

  // ---------------------------------------------------------------------------
  // Credential chains
  // ---------------------------------------------------------------------------

  /** `last_end + 1` in 64-bit unsigned arithmetic: the largest epoch wraps to 0. */
  function NextEpoch(end: u64): u64
  {
    if end == U64_LIMIT - 1 then 0 else end + 1
  }

  /**
   * Credential i begins right after credential i − 1 ended (at 0 for the first) and
   * its epoch range is nonempty.
   */
  predicate EpochOk(creds: seq<SegmentCredential>, i: nat)
    requires i < |creds|
  {
    && (if i == 0 then creds[i].epochStart == 0 else creds[i].epochStart == NextEpoch(creds[i - 1].epochEnd))
    && creds[i].epochStart <= creds[i].epochEnd
  }

  /** Epoch ranges start at 0 and follow each other without gap or overlap. */
  predicate EpochsContiguous(creds: seq<SegmentCredential>)
  {
    forall i :: 0 <= i < |creds| ==> EpochOk(creds, i)
  }

  /** Credential i's band lies in [0, 1] and does not rise more than REP_JUMP above the previous one. */
  predicate BandOk(creds: seq<SegmentCredential>, i: nat)
    requires i < |creds|
  {
    && 0.0 <= creds[i].repLow <= creds[i].repHigh <= 1.0
    && (i > 0 ==> creds[i].repLow <= creds[i - 1].repHigh + REP_JUMP)
  }

  predicate BandsValid(creds: seq<SegmentCredential>)
  {
    forall i :: 0 <= i < |creds| ==> BandOk(creds, i)
  }

  /**
   * `AggregateVerifier::verify`: accepts a nonempty list whose epochs are contiguous
   * from 0 and whose reputation bands are valid. The data root, public key and block
   * count do not take part.
   */
  method Verify(creds: seq<SegmentCredential>, dataRoot: Digest, pubKey: PubKey, totalBlocks: u64)
    returns (ok: bool)
    ensures ok <==> |creds| > 0 && EpochsContiguous(creds) && BandsValid(creds)
  {
    if |creds| == 0 {
      return false;
    }
    var lastEnd: u64 := 0;
    var i := 0;
    while i < |creds|
      invariant 0 <= i <= |creds|
      invariant i > 0 ==> lastEnd == creds[i - 1].epochEnd
      invariant forall j :: 0 <= j < i ==> EpochOk(creds, j)
    {
      var cred := creds[i];
      if i == 0 && cred.epochStart != 0 {
        assert !EpochOk(creds, i);
        return false;
      }
      if i > 0 && cred.epochStart != NextEpoch(lastEnd) {
        assert !EpochOk(creds, i);
        return false;
      }
      if cred.epochStart > cred.epochEnd {
        assert !EpochOk(creds, i);
        return false;
      }
      lastEnd := cred.epochEnd;
      i := i + 1;
    }
    var lastHigh: real := -1.0;
    i := 0;
    while i < |creds|
      invariant 0 <= i <= |creds|
      invariant lastHigh == if i == 0 then -1.0 else creds[i - 1].repHigh
      invariant forall j :: 0 <= j < i ==> BandOk(creds, j)
    {
      var cred := creds[i];
      assert i > 0 ==> BandOk(creds, i - 1) && lastHigh >= 0.0;
      if cred.repLow < 0.0 || cred.repHigh > 1.0 || cred.repLow > cred.repHigh {
        assert !BandOk(creds, i);
        return false;
      }
      if lastHigh >= 0.0 && cred.repLow > lastHigh + REP_JUMP {
        assert !BandOk(creds, i);
        return false;
      }
      assert BandOk(creds, i);
      lastHigh := cred.repHigh;
      i := i + 1;
    }
    return true;
  }

  /**
   * When no epoch reaches the 64-bit maximum, contiguous credentials cover ordered,
   * disjoint epoch ranges: every later credential starts after every earlier one ends.
   */
  lemma {:induction false} ContiguousEpochsAreOrdered(creds: seq<SegmentCredential>, i: nat, j: nat)
    requires EpochsContiguous(creds)
    requires forall k :: 0 <= k < |creds| ==> creds[k].epochEnd < U64_LIMIT - 1
    requires i < j < |creds|
    ensures creds[i].epochEnd < creds[j].epochStart
    decreases j - i
  {
    assert EpochOk(creds, j);
    assert creds[j - 1].epochEnd < U64_LIMIT - 1;
    if i < j - 1 {
      ContiguousEpochsAreOrdered(creds, i, j - 1);
      assert EpochOk(creds, j - 1);
    }
  }

  /**
   * The 64-bit wrap of `last_end + 1`: a credential ending at the largest epoch may be
   * followed by one starting again at 0, and the chain is still contiguous.
   */
  lemma WrappedEpochIsContiguous(a: SegmentCredential, b: SegmentCredential)
    requires a.epochStart == 0 && a.epochEnd == U64_LIMIT - 1
    requires b.epochStart == 0
    ensures EpochsContiguous([a, b])
  {
    assert EpochOk([a, b], 0) && EpochOk([a, b], 1);
  }

  // ---------------------------------------------------------------------------
  // Spot checks
  // ---------------------------------------------------------------------------

  /** The root and the anchor recomputed from the packages equal the credential's. */
  predicate CommitmentsMatch(cr: Crypto, credential: SegmentCredential, proofs: seq<ProofPackage>)
    requires |proofs| > 0
  {
    ProofBuilder.SegmentRoot(cr, proofs) == credential.segRoot
    && ProofBuilder.Anchor(cr, proofs) == credential.anchorHash
  }

  /** The reputation assumed current when re-verifying: the middle of the credential's band. */
  function Midpoint(credential: SegmentCredential): real
  {
    (credential.repLow + credential.repHigh) / 2.0
  }

  /** The k-th sampled package passes single verification at the k-th clock reading. */
  predicate SampleVerifies(cr: Crypto, credential: SegmentCredential, proofs: seq<ProofPackage>, pubKey: PubKey,
                           samples: seq<nat>, clock: seq<u64>, k: nat)
    requires k < |samples| && k < |clock| && samples[k] < |proofs|
  {
    SingleVerifier.Verify(cr, proofs[samples[k]], pubKey, Midpoint(credential), clock[k], SPOT_CHECK_DELAY)
  }

  /**
   * `spot_check`: rejects an empty package list or a zero check count, then a root or
   * anchor mismatch; otherwise re-verifies min(check_count, N) sampled packages
   * (drawn with replacement from [0, N)) and rejects on the first failure.
   */
  method SpotCheck(cr: Crypto, credential: SegmentCredential, proofs: seq<ProofPackage>, pubKey: PubKey,
                   checkCount: nat, samples: seq<nat>, clock: seq<u64>)
    returns (ok: bool)
    requires |samples| == Min(checkCount, |proofs|) && |clock| == |samples|
    requires forall k :: 0 <= k < |samples| ==> samples[k] < |proofs|
    ensures ok <==>
      && |proofs| > 0 && checkCount > 0
      && CommitmentsMatch(cr, credential, proofs)
      && forall k :: 0 <= k < |samples| ==> SampleVerifies(cr, credential, proofs, pubKey, samples, clock, k)
  {
    if |proofs| == 0 || checkCount == 0 {
      return false;
    }
    if ProofBuilder.SegmentRoot(cr, proofs) != credential.segRoot {
      return false;
    }
    if ProofBuilder.Anchor(cr, proofs) != credential.anchorHash {
      return false;
    }
    var numToCheck := Min(checkCount, |proofs|);
    var i := 0;
    while i < numToCheck
      invariant 0 <= i <= numToCheck
      invariant forall k :: 0 <= k < i ==> SampleVerifies(cr, credential, proofs, pubKey, samples, clock, k)
    {
      var proof := proofs[samples[i]];
      if !SingleVerifier.Verify(cr, proof, pubKey, Midpoint(credential), clock[i], SPOT_CHECK_DELAY) {
        assert !SampleVerifies(cr, credential, proofs, pubKey, samples, clock, i);
        return false;
      }
      i := i + 1;
    }
    return true;
  }

  /**
   * Round trip with the builder: for the exact package list a credential was built
   * from, the root and anchor recomputation agrees, so the spot check's outcome
   * rests on the sampled re-verifications alone.
   */
  lemma BuiltCredentialCommitmentsMatch(cr: Crypto, repLow: real, repHigh: real, epochStart: u64, epochEnd: u64,
                                        proofs: seq<ProofPackage>)
    requires |proofs| > 0
    ensures ProofBuilder.BuildSegmentCredential(cr, repLow, repHigh, epochStart, epochEnd, proofs).Some?
    ensures CommitmentsMatch(cr, ProofBuilder.BuildSegmentCredential(cr, repLow, repHigh, epochStart, epochEnd, proofs).value, proofs)
  {
    var c := ProofBuilder.BuildSegmentCredential(cr, repLow, repHigh, epochStart, epochEnd, proofs).value;
    assert c.anchorHash == ProofBuilder.Anchor(cr, proofs);
  }
}
