/**
 * The storage node (src/core/init/storage_node.cpp): keeps the encrypted blocks it was
 * given, builds the Merkle tree over their hashes and sets up its enclave.
 *
 * Key generation is an input: `keygen` is the generated public key, or None when
 * generation fails.
 */
module StorageNode {
  import opened Common
  import MerkleTree
  import AttestationSim

  datatype Node = Node(stored: seq<EncryptedBlock>)

  /** A default-constructed node stores nothing. */
  const EMPTY: Node := Node([])

  /** The hash of every block, in order: the leaves of the node's Merkle tree. */
  function BlockHashes(cr: Crypto, blocks: seq<EncryptedBlock>): (hashes: seq<Digest>)
    ensures |hashes| == |blocks|
    ensures forall i :: 0 <= i < |blocks| ==> hashes[i] == BlockHash(cr, blocks[i])
  {
    seq(|blocks|, i requires 0 <= i < |blocks| => BlockHash(cr, blocks[i]))
  }

  /**
   * `init_tee`: fails (None) when key generation fails; otherwise returns the
   * attestation report, which verifies under the generated key.
   */
  function InitTee(keygen: Option<PubKey>): (r: Option<seq<byte>>)
    ensures r.None? <==> keygen.None?
    ensures r.Some? ==> r.value == AttestationSim.CreateAttestation(keygen.value)
    ensures r.Some? ==> AttestationSim.Matches(r.value, keygen.value) && r.value[0] == AttestationSim.REPORT_TYPE
  {
    match keygen
    case None => None
    case Some(pk) => Some(AttestationSim.CreateAttestation(pk))
  }

  /**
   * `build_merkle_tree`: -1 for no blocks, leaving the caller's tree as it was;
   * otherwise 0 and the tree whose leaves are the block hashes in order.
   */
  method BuildMerkleTree(cr: Crypto, blocks: seq<EncryptedBlock>, current: MerkleTree.Tree)
    returns (status: int, tree: MerkleTree.Tree)
    ensures status == -1 <==> |blocks| == 0
    ensures status == 0 <==> |blocks| > 0
    ensures status == -1 ==> tree == current
    ensures status == 0 ==>
      && tree == MerkleTree.Build(cr.sha256, BlockHashes(cr, blocks))
      && MerkleTree.Consistent(cr.sha256, tree)
      && |tree.layers[0]| == |blocks|
      && (forall i :: 0 <= i < |blocks| ==> tree.layers[0][i] == BlockHash(cr, blocks[i]))
  {
    if |blocks| == 0 {
      return -1, current;
    }
    var hashes: seq<Digest> := [];
    var i := 0;
    while i < |blocks|
      invariant 0 <= i <= |blocks| && |hashes| == i
      invariant forall j :: 0 <= j < i ==> hashes[j] == BlockHash(cr, blocks[j])
    {
      hashes := hashes + [BlockHash(cr, blocks[i])];
      i := i + 1;
    }
    assert hashes == BlockHashes(cr, blocks);
    return 0, MerkleTree.Build(cr.sha256, hashes);
  }

  /** `store_blocks`: replaces whatever was stored (always succeeds). */
  function StoreBlocks(n: Node, blocks: seq<EncryptedBlock>): Node
  {
    Node(blocks)
  }

  /** `get_block`: the block at the index, or None past the end. */
  function GetBlock(n: Node, index: nat): (r: Option<EncryptedBlock>)
    ensures r.None? <==> index >= |n.stored|
    ensures r.Some? ==> r.value == n.stored[index]
  {
    if index >= |n.stored| then None else Some(n.stored[index])
  }

  /** `get_block_count`. */
  function GetBlockCount(n: Node): nat
  {
    |n.stored|
  }

  /**
   * Storing then reading: the count is the number stored, every index below it yields
   * the block stored there, and earlier contents are gone.
   */
  lemma StoreThenGet(n: Node, blocks: seq<EncryptedBlock>, index: nat)
    ensures GetBlockCount(StoreBlocks(n, blocks)) == |blocks|
    ensures GetBlock(StoreBlocks(n, blocks), index) == if index < |blocks| then Some(blocks[index]) else None
  {
  }

  /**
   * Every stored block can be proved against the root of the tree built over the
   * same blocks: the block's hash with its path verifies.
   */
  lemma StoredBlockProvable(cr: Crypto, blocks: seq<EncryptedBlock>, i: nat)
    requires i < |blocks|
    ensures MerkleTree.GetProof(MerkleTree.Build(cr.sha256, BlockHashes(cr, blocks)), i).Some?
    ensures MerkleTree.VerifyProof(cr.sha256, BlockHash(cr, blocks[i]),
              MerkleTree.GetProof(MerkleTree.Build(cr.sha256, BlockHashes(cr, blocks)), i).value,
              MerkleTree.GetRoot(MerkleTree.Build(cr.sha256, BlockHashes(cr, blocks))))
  {
    MerkleTree.BuildIsWellShaped(cr.sha256, BlockHashes(cr, blocks));
    MerkleTree.ProofRoundTrip(cr.sha256, BlockHashes(cr, blocks), i);
  }
}
