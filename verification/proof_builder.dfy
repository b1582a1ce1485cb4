/**
 * Proof-package and segment-credential construction
 * (src/core/proof_generator/proof_builder.cpp).
 *
 * The enclave's random draw is an input (None when the source fails) and signing is
 * an abstract, possibly failing function of the message.
 */
module ProofBuilder {
  import opened Common
  import MerkleTree
  import Challenge
  import TimeSlot

  type Signer = seq<byte> -> Option<Signature>

  // ---------------------------------------------------------------------------
  // The signed message
  // ---------------------------------------------------------------------------

  /**
   * The canonical signed message: time_slot_id (8 bytes) ‖ t_start (8) ‖ t_slot (4) ‖
   * rep_snapshot (8, the double's memory image) ‖ random_r (32); integers little-endian.
   */
  function SignedMessage(cr: Crypto, slotId: u64, tStart: u64, tSlot: u32, rep: real, randomR: Digest): seq<byte>
  {
    Concat(Concat(Concat(Concat(LittleEndian(slotId, 8), LittleEndian(tStart, 8)), LittleEndian(tSlot, 4)),
                  cr.doubleBytes(rep)), randomR)
  }

  /** The message is 60 bytes and every field can be read back from its fixed position. */
  lemma SignedMessageLayout(cr: Crypto, slotId: u64, tStart: u64, tSlot: u32, rep: real, randomR: Digest)
    ensures var m := SignedMessage(cr, slotId, tStart, tSlot, rep, randomR);
      && |m| == 60
      && FromLittleEndian(m[0..8]) == slotId
      && FromLittleEndian(m[8..16]) == tStart
      && FromLittleEndian(m[16..20]) == tSlot
      && m[20..28] == cr.doubleBytes(rep)
      && m[28..60] == randomR
  {
    var m := SignedMessage(cr, slotId, tStart, tSlot, rep, randomR);
    assert Pow256(8) == U64_LIMIT;
    assert Pow256(4) == U32_LIMIT;
    assert m[0..8] == LittleEndian(slotId, 8);
    assert m[8..16] == LittleEndian(tStart, 8);
    assert m[16..20] == LittleEndian(tSlot, 4);
    LittleEndianRoundTrip(slotId, 8);
    LittleEndianRoundTrip(tStart, 8);
    LittleEndianRoundTrip(tSlot, 4);
  }

  /**
   * Two packages with the same signed message agree on slot id, start time, slot
   * length, reputation image and challenge: changing any of them changes the message.
   */
  lemma SignedMessageInjective(cr: Crypto, s1: u64, a1: u64, l1: u32, rep1: real, r1: Digest,
                                            s2: u64, a2: u64, l2: u32, rep2: real, r2: Digest)
    requires SignedMessage(cr, s1, a1, l1, rep1, r1) == SignedMessage(cr, s2, a2, l2, rep2, r2)
    ensures s1 == s2 && a1 == a2 && l1 == l2 && cr.doubleBytes(rep1) == cr.doubleBytes(rep2) && r1 == r2
  {
    SignedMessageLayout(cr, s1, a1, l1, rep1, r1);
    SignedMessageLayout(cr, s2, a2, l2, rep2, r2);
  }

  // ---------------------------------------------------------------------------
  // Merkle path serialisation
  // ---------------------------------------------------------------------------

  function SideByte(isLeft: bool): byte
  {
    if isLeft then 1 else 0
  }

  /** Each step becomes its 32-byte sibling followed by 0x01 (left) or 0x00 (right). */
  function SerializePath(path: seq<MerkleTree.PathStep>): (bytes: seq<byte>)
    ensures |bytes| == 33 * |path|
    ensures forall j :: 0 <= j < |path| ==>
      bytes[33 * j .. 33 * j + 32] == path[j].sibling && bytes[33 * j + 32] == SideByte(path[j].isLeft)
  {
    if |path| == 0 then []
    else
      var head := Concat(path[0].sibling, [SideByte(path[0].isLeft)]);
      var rest := SerializePath(path[1..]);
      assert forall j :: 1 <= j < |path| ==>
        (head + rest)[33 * j .. 33 * j + 32] == rest[33 * (j - 1) .. 33 * (j - 1) + 32];
      head + rest
  }

  // ---------------------------------------------------------------------------
  // Proof packages
  // ---------------------------------------------------------------------------

  /**
   * The slot length written into a package: the formula of the reputation, not
   * clamped, truncated toward zero. In [0, 1] it agrees with the slot timer's length;
   * outside it leaves [T_MIN, T_MAX].
   */
  function PackageSlot(rep: real): (tSlot: u32)
    requires TimeSlot.SlotRepresentable(rep)
    ensures TimeSlot.SlotFormula(rep) >= 0.0 ==>
      tSlot as real <= TimeSlot.SlotFormula(rep) < tSlot as real + 1.0
    ensures TimeSlot.SlotFormula(rep) < 0.0 ==> tSlot == 0
    ensures MIN_REP <= rep <= MAX_REP ==> T_MIN <= tSlot <= T_MAX && tSlot == TimeSlot.CalculateSlotLength(rep)
    ensures rep > MAX_REP ==> tSlot < T_MIN
    ensures rep < MIN_REP ==> tSlot >= T_MAX
  {
    TimeSlot.FormulaSlot(rep)
  }

  /**
   * `build_proof_package`. Fails (None) when the random draw fails, when the tree has
   * no path for the challenged index, or when signing fails; otherwise the package
   * carries the caller's slot id, previous hash, reputation and start time verbatim,
   * the challenge and its index, the serialised path, the slot length from the
   * reputation and the signature over the canonical message.
   */
  function BuildProofPackage(cr: Crypto, sign: Signer, tree: MerkleTree.Tree, currentRep: real,
                             slotId: u64, tStart: u64, prevHash: Digest, totalBlocks: u64,
                             draw: Option<Digest>): (r: Option<ProofPackage>)
    requires MerkleTree.WellShaped(tree)
    requires Challenge.IndexableCount(totalBlocks)
    requires TimeSlot.SlotRepresentable(currentRep)
    ensures draw.None? ==> r.None?
    ensures draw.Some? && MerkleTree.GetProof(tree, Challenge.ChallengeIndex(draw.value, totalBlocks)).None? ==> r.None?
    ensures r.Some? ==>
      var p := r.value;
      var path := MerkleTree.GetProof(tree, p.challengeIdx);
      && draw == Some(p.randomR)
      && p.challengeIdx == Challenge.ChallengeIndex(p.randomR, totalBlocks)
      && p.timeSlotId == slotId && p.prevHash == prevHash
      && p.repSnapshot == currentRep && p.tStart == tStart
      && p.tSlot == PackageSlot(currentRep)
      && (MIN_REP <= currentRep <= MAX_REP ==> T_MIN <= p.tSlot <= T_MAX)
      && path.Some?
      && p.merklePath == SerializePath(path.value)
      && |p.merklePath| == 33 * (|tree.layers| - 1)
      && sign(SignedMessage(cr, slotId, tStart, p.tSlot, currentRep, p.randomR)) == Some(p.enclaveSig)
    ensures draw.Some? && MerkleTree.GetProof(tree, Challenge.ChallengeIndex(draw.value, totalBlocks)).Some? ==>
      (r.None? <==> sign(SignedMessage(cr, slotId, tStart, PackageSlot(currentRep), currentRep, draw.value)).None?)
  {
    match draw
    case None => None
    case Some(randomR) =>
      var idx := Challenge.ChallengeIndex(randomR, totalBlocks);
      match MerkleTree.GetProof(tree, idx)
      case None => None
      case Some(path) =>
        var tSlot := PackageSlot(currentRep);
        match sign(SignedMessage(cr, slotId, tStart, tSlot, currentRep, randomR))
        case None => None
        case Some(sig) =>
          Some(ProofPackage(slotId, prevHash, currentRep, tSlot, randomR, idx, SerializePath(path), sig, tStart))
  }

  // ---------------------------------------------------------------------------
  // Segment credentials
  // ---------------------------------------------------------------------------

  /** The content hash of every package, in input order. */
  function ContentHashes(cr: Crypto, proofs: seq<ProofPackage>): (hashes: seq<Digest>)
    ensures |hashes| == |proofs|
    ensures forall i :: 0 <= i < |proofs| ==> hashes[i] == cr.contentHash(proofs[i])
  {
    seq(|proofs|, i requires 0 <= i < |proofs| => cr.contentHash(proofs[i]))
  }

  /** The Merkle tree over the packages' content hashes. */
  function SegmentTree(cr: Crypto, proofs: seq<ProofPackage>): (t: MerkleTree.Tree)
    ensures MerkleTree.WellShaped(t)
  {
    MerkleTree.BuildIsWellShaped(cr.sha256, ContentHashes(cr, proofs));
    MerkleTree.Build(cr.sha256, ContentHashes(cr, proofs))
  }

  function SegmentRoot(cr: Crypto, proofs: seq<ProofPackage>): Digest
  {
    MerkleTree.GetRoot(SegmentTree(cr, proofs))
  }

  /** The content hashes of the first and the last package, concatenated. */
  function Anchor(cr: Crypto, proofs: seq<ProofPackage>): (a: Bytes64)
    requires |proofs| > 0
    ensures a[..32] == cr.contentHash(proofs[0])
    ensures a[32..] == cr.contentHash(proofs[|proofs| - 1])
  {
    Concat(cr.contentHash(proofs[0]), cr.contentHash(proofs[|proofs| - 1]))
  }

  /**
   * `build_segment_credential`: fails on an empty package list; otherwise copies the
   * reputation band and epoch range verbatim and commits to the packages through the
   * segment root and the first/last anchor.
   */
  function BuildSegmentCredential(cr: Crypto, repLow: real, repHigh: real, epochStart: u64, epochEnd: u64,
                                  proofs: seq<ProofPackage>): (r: Option<SegmentCredential>)
    ensures r.None? <==> |proofs| == 0
    ensures r.Some? ==>
      && r.value.repLow == repLow && r.value.repHigh == repHigh
      && r.value.epochStart == epochStart && r.value.epochEnd == epochEnd
      && r.value.segRoot == SegmentRoot(cr, proofs)
      && r.value.anchorHash[..32] == cr.contentHash(proofs[0])
      && r.value.anchorHash[32..] == cr.contentHash(proofs[|proofs| - 1])
  {
    if |proofs| == 0 then None
    else Some(SegmentCredential(repLow, repHigh, epochStart, epochEnd, SegmentRoot(cr, proofs), Anchor(cr, proofs)))
  }

  /**
   * Every package of a segment is committed to by its credential: the content hash of
   * package i has an inclusion proof that verifies against seg_root.
   */
  lemma SegmentCommitsToEveryPackage(cr: Crypto, repLow: real, repHigh: real, epochStart: u64, epochEnd: u64,
                                     proofs: seq<ProofPackage>, i: nat)
    requires i < |proofs|
    ensures BuildSegmentCredential(cr, repLow, repHigh, epochStart, epochEnd, proofs).Some?
    ensures MerkleTree.GetProof(SegmentTree(cr, proofs), i).Some?
    ensures MerkleTree.VerifyProof(cr.sha256, cr.contentHash(proofs[i]),
              MerkleTree.GetProof(SegmentTree(cr, proofs), i).value,
              BuildSegmentCredential(cr, repLow, repHigh, epochStart, epochEnd, proofs).value.segRoot)
  {
    MerkleTree.ProofRoundTrip(cr.sha256, ContentHashes(cr, proofs), i);
  }
}
