/**
 * The verification contract (src/blockchain_sim/verification_contract.cpp): single
 * proofs are verified against the node's current reputation, which is then updated;
 * segment credentials are checked and, when accepted, appended to the node's list.
 *
 * The submission timestamp, read from the clock in the source, is a parameter, as are
 * the spot check's sampled indices and clock readings.
 */
module VerificationContract {
  import opened Common
  import SingleVerifier
  import AggregateVerifier
  import ReputationContract

  /** The accepted credentials of every node. */
  type Store = map<string, seq<SegmentCredential>>

  /** `get_node_credentials`: the node's credentials in submission order, empty if it has none. */
  function GetNodeCredentials(store: Store, node: string): (creds: seq<SegmentCredential>)
    ensures node !in store ==> creds == []
    ensures node in store ==> creds == store[node]
  {
    if node in store then store[node] else []
  }

  /**
   * `submit_single_proof`: an unregistered node is refused and nothing changes.
   * Otherwise the proof is verified with the node's current reputation and the
   * network delay, and the node's reputation takes exactly one step up (accepted) or
   * down (rejected); no other node changes.
   */
  function SubmitSingleProof(cr: Crypto, rc: ReputationContract.Contract, node: string, proof: ProofPackage,
                             pubKey: PubKey, submitTime: u64): (r: (bool, ReputationContract.Contract))
    ensures node !in rc.reps ==> !r.0 && r.1 == rc
    ensures node in rc.reps ==>
      && r.0 == SingleVerifier.Verify(cr, proof, pubKey, rc.reps[node], submitTime, NETWORK_DELAY)
      && r.1.params == rc.params
      && r.1.reps.Keys == rc.reps.Keys
      && r.1.reps[node] == ReputationContract.Adjust(rc.reps[node], r.0)
      && ReputationContract.OthersUnchanged(rc, r.1, node)
  {
    if !ReputationContract.HasNode(rc, node) then (false, rc)
    else
      var verified := SingleVerifier.Verify(cr, proof, pubKey, ReputationContract.GetReputation(rc, node).value,
                                            submitTime, NETWORK_DELAY);
      (verified, ReputationContract.UpdateReputation(rc, node, verified).value)
  }

  /**
   * Submitting never takes a reputation out of [MIN_REP, MAX_REP], and an accepted
   * proof never lowers the node's reputation while a rejected one never raises it.
   */
  lemma SubmitKeepsReputationInRange(cr: Crypto, rc: ReputationContract.Contract, node: string, proof: ProofPackage,
                                     pubKey: PubKey, submitTime: u64)
    requires ReputationContract.InRange(rc)
    requires node in rc.reps
    ensures var r := SubmitSingleProof(cr, rc, node, proof, pubKey, submitTime);
      && ReputationContract.InRange(r.1)
      && (r.0 ==> r.1.reps[node] >= rc.reps[node])
      && (!r.0 ==> r.1.reps[node] <= rc.reps[node])
  {
    var r := SubmitSingleProof(cr, rc, node, proof, pubKey, submitTime);
    forall n | n in r.1.reps
      ensures MIN_REP <= r.1.reps[n] <= MAX_REP
    {
      if n != node {
        assert n in rc.reps;
      }
    }
  }

  /**
   * The challenge index is not part of the decision: a package whose index was
   * altered is judged exactly like the original, so the reputation moves the same way.
   */
  lemma SubmitIgnoresChallengeIndex(cr: Crypto, rc: ReputationContract.Contract, node: string, proof: ProofPackage,
                                    pubKey: PubKey, submitTime: u64, idx: u32)
    ensures SubmitSingleProof(cr, rc, node, proof.(challengeIdx := idx), pubKey, submitTime)
         == SubmitSingleProof(cr, rc, node, proof, pubKey, submitTime)
  {
    if node in rc.reps {
      SingleVerifier.IgnoresIndexAndChain(cr, proof, pubKey, rc.reps[node], submitTime, NETWORK_DELAY, idx, proof.prevHash);
    }
  }

  /**
   * `submit_segment_credential`: the credential alone must pass aggregate verification
   * (block count 0), then the packages behind it must pass a spot check of three
   * samples; only then is it appended to the node's list. No other node's list changes.
   */
  method SubmitSegmentCredential(cr: Crypto, store: Store, node: string, credential: SegmentCredential,
                                 proofs: seq<ProofPackage>, dataRoot: Digest, pubKey: PubKey,
                                 samples: seq<nat>, clock: seq<u64>)
    returns (ok: bool, store': Store)
    requires |samples| == Min(AggregateVerifier.DEFAULT_CHECK_COUNT, |proofs|) && |clock| == |samples|
    requires forall k :: 0 <= k < |samples| ==> samples[k] < |proofs|
    ensures ok <==>
      && AggregateVerifier.EpochsContiguous([credential])
      && AggregateVerifier.BandsValid([credential])
      && |proofs| > 0
      && AggregateVerifier.CommitmentsMatch(cr, credential, proofs)
      && forall k :: 0 <= k < |samples| ==>
           AggregateVerifier.SampleVerifies(cr, credential, proofs, pubKey, samples, clock, k)
    ensures ok ==> GetNodeCredentials(store', node) == GetNodeCredentials(store, node) + [credential]
    ensures !ok ==> store' == store
    ensures forall n :: n != node ==> GetNodeCredentials(store', n) == GetNodeCredentials(store, n)
  {
    var chainOk := AggregateVerifier.Verify([credential], dataRoot, pubKey, 0);
    if !chainOk {
      return false, store;
    }
    var sampled := AggregateVerifier.SpotCheck(cr, credential, proofs, pubKey, AggregateVerifier.DEFAULT_CHECK_COUNT,
                                               samples, clock);
    if !sampled {
      return false, store;
    }
    return true, store[node := GetNodeCredentials(store, node) + [credential]];
  }

  /**
   * Each credential is checked as a chain of length one, so one whose epoch range does
   * not begin at 0 is always refused, whatever its packages.
   */
  method RejectsLaterEpochs(cr: Crypto, store: Store, node: string, credential: SegmentCredential,
                            proofs: seq<ProofPackage>, dataRoot: Digest, pubKey: PubKey,
                            samples: seq<nat>, clock: seq<u64>)
    returns (ok: bool, store': Store)
    requires credential.epochStart != 0
    requires |samples| == Min(AggregateVerifier.DEFAULT_CHECK_COUNT, |proofs|) && |clock| == |samples|
    requires forall k :: 0 <= k < |samples| ==> samples[k] < |proofs|
    ensures !ok && store' == store
  {
    ok, store' := SubmitSegmentCredential(cr, store, node, credential, proofs, dataRoot, pubKey, samples, clock);
    assert !AggregateVerifier.EpochOk([credential], 0);
  }
}
