/**
 * Verification of one proof package (src/core/verifier/single_verifier.cpp).
 *
 * Five checks run in order and the first failure rejects: the enclave signature over
 * the canonical message, the submission window, the reputation drift, the slot length
 * against the reputation snapshot, and the byte format of the serialised path.
 */
module SingleVerifier {
  import opened Common
  import MerkleTree
  import Challenge
  import TimeSlot
  import TimeUtils
  import ProofBuilder

  /** Which check decided the outcome: the first one that fails, or Accept. */
  datatype Verdict = Accept | BadSignature | OutsideWindow | ReputationDrift | SlotMismatch | MalformedPath

  predicate SignatureOk(cr: Crypto, proof: ProofPackage, pubKey: PubKey)
  {
    cr.sigValid(pubKey,
                ProofBuilder.SignedMessage(cr, proof.timeSlotId, proof.tStart, proof.tSlot, proof.repSnapshot, proof.randomR),
                proof.enclaveSig)
  }

  predicate InWindow(proof: ProofPackage, submitTime: u64, maxDelay: u32)
  {
    TimeUtils.IsTimeValid(proof.tStart, proof.tSlot, submitTime, maxDelay)
  }

  /** The snapshot is within DELTA_REP of the verifier's current reputation. */
  predicate ReputationConsistent(proof: ProofPackage, currentRep: real)
  {
    AbsReal(proof.repSnapshot - currentRep) <= DELTA_REP
  }

  /** The stored slot length is within one second of the formula applied to the snapshot. */
  predicate SlotConsistent(proof: ProofPackage)
  {
    var expected := TimeSlot.FormulaSlot(proof.repSnapshot);
    -1 <= proof.tSlot - expected <= 1
  }

  /** The path is a whole number of 33-byte records. */
  predicate PathWellFormed(proof: ProofPackage)
  {
    |proof.merklePath| % 33 == 0
  }

  /**
   * The five checks in the order `SingleVerifier::verify` runs them. A verdict other
   * than Accept names a check that fails after all earlier checks passed.
   */
  function Check(cr: Crypto, proof: ProofPackage, pubKey: PubKey, currentRep: real, submitTime: u64, maxDelay: u32): (v: Verdict)
    ensures v == Accept <==>
      && SignatureOk(cr, proof, pubKey)
      && InWindow(proof, submitTime, maxDelay)
      && ReputationConsistent(proof, currentRep)
      && SlotConsistent(proof)
      && PathWellFormed(proof)
    ensures v == BadSignature <==> !SignatureOk(cr, proof, pubKey)
    ensures v == OutsideWindow ==> SignatureOk(cr, proof, pubKey) && !InWindow(proof, submitTime, maxDelay)
    ensures v == ReputationDrift ==>
      SignatureOk(cr, proof, pubKey) && InWindow(proof, submitTime, maxDelay) && !ReputationConsistent(proof, currentRep)
    ensures v == SlotMismatch ==>
      SignatureOk(cr, proof, pubKey) && InWindow(proof, submitTime, maxDelay) && ReputationConsistent(proof, currentRep)
      && !SlotConsistent(proof)
    ensures v == MalformedPath ==>
      SignatureOk(cr, proof, pubKey) && InWindow(proof, submitTime, maxDelay) && ReputationConsistent(proof, currentRep)
      && SlotConsistent(proof) && !PathWellFormed(proof)
  {
    if !SignatureOk(cr, proof, pubKey) then BadSignature
    else if !InWindow(proof, submitTime, maxDelay) then OutsideWindow
    else if !ReputationConsistent(proof, currentRep) then ReputationDrift
    else if !SlotConsistent(proof) then SlotMismatch
    else if !PathWellFormed(proof) then MalformedPath
    else Accept
  }

  /** `SingleVerifier::verify`: true exactly when all five checks pass. */
  function Verify(cr: Crypto, proof: ProofPackage, pubKey: PubKey, currentRep: real, submitTime: u64, maxDelay: u32): bool
  {
    Check(cr, proof, pubKey, currentRep, submitTime, maxDelay) == Accept
  }

  /**
   * The challenge index and the previous-package hash are neither signed nor checked:
   * changing them never changes the outcome.
   */
  lemma IgnoresIndexAndChain(cr: Crypto, proof: ProofPackage, pubKey: PubKey, currentRep: real,
                             submitTime: u64, maxDelay: u32, idx: u32, prevHash: Digest)
    ensures Verify(cr, proof.(challengeIdx := idx, prevHash := prevHash), pubKey, currentRep, submitTime, maxDelay)
        == Verify(cr, proof, pubKey, currentRep, submitTime, maxDelay)
  {
  }

  /** The enclave's signatures verify under its public key. */
  ghost predicate SignerMatchesKey(cr: Crypto, sign: ProofBuilder.Signer, pubKey: PubKey)
  {
    forall m :: sign(m).Some? ==> cr.sigValid(pubKey, m, sign(m).value)
  }

  /**
   * A package produced by the builder always passes the slot-length and path-format
   * checks, and its signature check passes when the signer matches the key.
   */
  lemma BuiltPackageWellFormed(cr: Crypto, sign: ProofBuilder.Signer, pubKey: PubKey, tree: MerkleTree.Tree,
                               currentRep: real, slotId: u64, tStart: u64, prevHash: Digest,
                               totalBlocks: u64, draw: Option<Digest>)
    requires MerkleTree.WellShaped(tree)
    requires Challenge.IndexableCount(totalBlocks)
    requires TimeSlot.SlotRepresentable(currentRep)
    ensures var r := ProofBuilder.BuildProofPackage(cr, sign, tree, currentRep, slotId, tStart, prevHash, totalBlocks, draw);
      r.Some? ==>
        && SlotConsistent(r.value)
        && PathWellFormed(r.value)
        && (SignerMatchesKey(cr, sign, pubKey) ==> SignatureOk(cr, r.value, pubKey))
  {
    var r := ProofBuilder.BuildProofPackage(cr, sign, tree, currentRep, slotId, tStart, prevHash, totalBlocks, draw);
    if r.Some? {
      PackageFieldsPassChecks(cr, sign, pubKey, r.value, |tree.layers| - 1);
    }
  }

  /**
   * The verifier's slot, path and signature checks depend only on fields the builder
   * fixes: the package slot of the snapshot, a path of whole 33-byte records and the
   * signer's signature over the signed message.
   */
  lemma PackageFieldsPassChecks(cr: Crypto, sign: ProofBuilder.Signer, pubKey: PubKey, p: ProofPackage, steps: int)
    requires TimeSlot.SlotRepresentable(p.repSnapshot)
    requires p.tSlot == ProofBuilder.PackageSlot(p.repSnapshot)
    requires |p.merklePath| == 33 * steps
    requires sign(ProofBuilder.SignedMessage(cr, p.timeSlotId, p.tStart, p.tSlot, p.repSnapshot, p.randomR)) == Some(p.enclaveSig)
    ensures SlotConsistent(p)
    ensures PathWellFormed(p)
    ensures SignerMatchesKey(cr, sign, pubKey) ==> SignatureOk(cr, p, pubKey)
  {
    assert (33 * steps) % 33 == 0;
  }

  /**
   * Builder/verifier agreement: a built package, signed by the key's enclave, is
   * accepted by any verifier whose current reputation is within DELTA_REP of the
   * snapshot and whose clock falls in the package's window.
   */
  lemma BuiltPackageAccepted(cr: Crypto, sign: ProofBuilder.Signer, pubKey: PubKey, tree: MerkleTree.Tree,
                             currentRep: real, slotId: u64, tStart: u64, prevHash: Digest,
                             totalBlocks: u64, draw: Option<Digest>,
                             verifierRep: real, submitTime: u64, maxDelay: u32)
    requires MerkleTree.WellShaped(tree)
    requires Challenge.IndexableCount(totalBlocks)
    requires TimeSlot.SlotRepresentable(currentRep)
    requires SignerMatchesKey(cr, sign, pubKey)
    requires AbsReal(currentRep - verifierRep) <= DELTA_REP
    requires TimeUtils.IsTimeValid(tStart, ProofBuilder.PackageSlot(currentRep), submitTime, maxDelay)
    ensures var r := ProofBuilder.BuildProofPackage(cr, sign, tree, currentRep, slotId, tStart, prevHash, totalBlocks, draw);
      r.Some? ==> Verify(cr, r.value, pubKey, verifierRep, submitTime, maxDelay)
  {
    BuiltPackageWellFormed(cr, sign, pubKey, tree, currentRep, slotId, tStart, prevHash, totalBlocks, draw);
  }
}
