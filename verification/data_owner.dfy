/**
 * The data owner (src/core/init/data_owner.cpp): splits a file into 1024-byte blocks,
 * encrypts each under a fresh IV, fingerprints the result with a Merkle root, and
 * checks proof packages returned by a storage node.
 *
 * The enclave's IV draws are a stream (`ivSource(k)` for the k-th block, None when the
 * draw fails) and AES-GCM is an abstract, possibly failing function; the clock read
 * by `verify_proof` is a parameter.
 */
module DataOwner {
  import opened Common
  import MerkleTree
  import TimeUtils
  import ProofBuilder
  import SingleVerifier
  import StorageNode

  /** AES-GCM encryption of a plaintext under a key and IV: ciphertext and tag, or None on failure. */
  type Cipher = (Digest, seq<byte>, Iv) -> Option<(seq<byte>, AuthTag)>

  /** AES-GCM decryption: the plaintext, or None when the tag does not authenticate. */
  type Decipher = (Digest, seq<byte>, Iv, AuthTag) -> Option<seq<byte>>

  // ---------------------------------------------------------------------------
  // Chunking
  // ---------------------------------------------------------------------------

  /** The number of blocks of a file of `size` bytes: the size divided by BLOCK_SIZE, rounded up. */
  function NumBlocks(size: nat): (n: nat)
    ensures n * BLOCK_SIZE >= size
    ensures n > 0 ==> (n - 1) * BLOCK_SIZE < size
  {
    (size + BLOCK_SIZE - 1) / BLOCK_SIZE
  }

  /** Block k of the file: bytes [k·BLOCK_SIZE, min((k+1)·BLOCK_SIZE, size)). */
  function Chunk(raw: seq<byte>, k: nat): (c: seq<byte>)
    requires k < NumBlocks(|raw|)
    ensures 0 < |c| <= BLOCK_SIZE
    ensures k + 1 < NumBlocks(|raw|) ==> |c| == BLOCK_SIZE
  {
    raw[k * BLOCK_SIZE .. Min((k + 1) * BLOCK_SIZE, |raw|)]
  }

  /** The pieces of a list joined in order. */
  function Flatten(pieces: seq<seq<byte>>): seq<byte>
  {
    if |pieces| == 0 then [] else Flatten(pieces[..|pieces| - 1]) + pieces[|pieces| - 1]
  }

  /** The first n blocks of the file. */
  function Chunks(raw: seq<byte>, n: nat): (cs: seq<seq<byte>>)
    requires n <= NumBlocks(|raw|)
    ensures |cs| == n
    ensures forall k :: 0 <= k < n ==> cs[k] == Chunk(raw, k)
  {
    seq(n, k requires 0 <= k < n => Chunk(raw, k))
  }

  /** The first n blocks, joined, are the file's first min(n·BLOCK_SIZE, size) bytes. */
  lemma {:induction false} ChunksPrefix(raw: seq<byte>, n: nat)
    requires n <= NumBlocks(|raw|)
    ensures Flatten(Chunks(raw, n)) == raw[..Min(n * BLOCK_SIZE, |raw|)]
  {
    if n > 0 {
      var cs := Chunks(raw, n);
      assert cs[..n - 1] == Chunks(raw, n - 1);
      ChunksPrefix(raw, n - 1);
      assert (n - 1) * BLOCK_SIZE < |raw|;
      assert raw[..(n - 1) * BLOCK_SIZE] + raw[(n - 1) * BLOCK_SIZE .. Min(n * BLOCK_SIZE, |raw|)]
          == raw[..Min(n * BLOCK_SIZE, |raw|)];
    }
  }

  /** The blocks partition the file: joined in order they give back exactly the file. */
  lemma ChunksPartitionFile(raw: seq<byte>)
    ensures Flatten(Chunks(raw, NumBlocks(|raw|))) == raw
  {
    ChunksPrefix(raw, NumBlocks(|raw|));
  }

  // ---------------------------------------------------------------------------
  // Encryption and fingerprint
  // ---------------------------------------------------------------------------

  /** Block `b` was produced by encrypting the k-th chunk under the k-th IV draw. */
  predicate EncryptsChunk(raw: seq<byte>, key: Digest, ivSource: nat -> Option<Iv>, encrypt: Cipher,
                          b: EncryptedBlock, k: nat)
    requires k < NumBlocks(|raw|)
  {
    && ivSource(k) == Some(b.iv)
    && encrypt(key, Chunk(raw, k), b.iv) == Some((b.ciphertext, b.authTag))
  }

  /** Block k can be produced: its IV draw and its encryption both succeed. */
  predicate BlockSucceeds(raw: seq<byte>, key: Digest, ivSource: nat -> Option<Iv>, encrypt: Cipher, k: nat)
    requires k < NumBlocks(|raw|)
  {
    ivSource(k).Some? && encrypt(key, Chunk(raw, k), ivSource(k).value).Some?
  }

  /** The file fingerprint: all zero for no blocks, otherwise the Merkle root over the block hashes. */
  function Fingerprint(cr: Crypto, blocks: seq<EncryptedBlock>): Digest
  {
    if |blocks| == 0 then ZERO_DIGEST
    else
      var t := MerkleTree.Build(cr.sha256, StorageNode.BlockHashes(cr, blocks));
      MerkleTree.BuildIsWellShaped(cr.sha256, StorageNode.BlockHashes(cr, blocks));
      MerkleTree.GetRoot(t)
  }

  /**
   * `split_and_encrypt`. Succeeds (0) exactly when every block's IV draw and encryption
   * succeed; the blocks then encrypt the chunks in order and the fingerprint is the
   * Merkle root over their hashes (zero for an empty file). On the first failing block
   * it returns -1 with the blocks produced so far and the caller's fingerprint untouched.
   */
  method SplitAndEncrypt(cr: Crypto, raw: seq<byte>, key: Digest, ivSource: nat -> Option<Iv>, encrypt: Cipher,
                         fingerprintIn: Digest)
    returns (status: int, blocks: seq<EncryptedBlock>, fingerprint: Digest)
    ensures status == 0 || status == -1
    ensures status == 0 <==> forall k :: 0 <= k < NumBlocks(|raw|) ==> BlockSucceeds(raw, key, ivSource, encrypt, k)
    ensures |blocks| <= NumBlocks(|raw|)
    ensures forall k :: 0 <= k < |blocks| ==> EncryptsChunk(raw, key, ivSource, encrypt, blocks[k], k)
    ensures status == 0 ==> |blocks| == NumBlocks(|raw|) && fingerprint == Fingerprint(cr, blocks)
    ensures status == -1 ==>
      && |blocks| < NumBlocks(|raw|)
      && !BlockSucceeds(raw, key, ivSource, encrypt, |blocks|)
      && fingerprint == fingerprintIn
  {
    var numBlocks := NumBlocks(|raw|);
    blocks := [];
    var i := 0;
    while i < numBlocks
      invariant 0 <= i <= numBlocks && |blocks| == i
      invariant forall k :: 0 <= k < i ==> EncryptsChunk(raw, key, ivSource, encrypt, blocks[k], k)
      invariant forall k :: 0 <= k < i ==> BlockSucceeds(raw, key, ivSource, encrypt, k)
    {
      var data := Chunk(raw, i);
      var iv := ivSource(i);
      if iv.None? {
        assert !BlockSucceeds(raw, key, ivSource, encrypt, i);
        return -1, blocks, fingerprintIn;
      }
      var sealed := encrypt(key, data, iv.value);
      if sealed.None? {
        assert !BlockSucceeds(raw, key, ivSource, encrypt, i);
        return -1, blocks, fingerprintIn;
      }
      blocks := blocks + [EncryptedBlock(sealed.value.0, iv.value, sealed.value.1)];
      i := i + 1;
    }
    return 0, blocks, Fingerprint(cr, blocks);
  }

  /** Decrypt every block in order and join the plaintexts; None if any block fails. */
  function DecryptAll(decrypt: Decipher, key: Digest, blocks: seq<EncryptedBlock>): Option<seq<byte>>
  {
    if |blocks| == 0 then Some([])
    else
      var last := blocks[|blocks| - 1];
      match DecryptAll(decrypt, key, blocks[..|blocks| - 1])
      case None => None
      case Some(prefix) =>
        match decrypt(key, last.ciphertext, last.iv, last.authTag)
        case None => None
        case Some(plain) => Some(prefix + plain)
  }

  /** Decryption undoes encryption for every plaintext, key and IV. */
  ghost predicate Inverts(encrypt: Cipher, decrypt: Decipher)
  {
    forall key, plain, iv :: encrypt(key, plain, iv).Some? ==>
      decrypt(key, encrypt(key, plain, iv).value.0, iv, encrypt(key, plain, iv).value.1) == Some(plain)
  }

  lemma {:induction false} DecryptPrefix(raw: seq<byte>, key: Digest, ivSource: nat -> Option<Iv>, encrypt: Cipher,
                                         decrypt: Decipher, blocks: seq<EncryptedBlock>, n: nat)
    requires Inverts(encrypt, decrypt)
    requires |blocks| <= NumBlocks(|raw|) && n <= |blocks|
    requires forall k :: 0 <= k < |blocks| ==> EncryptsChunk(raw, key, ivSource, encrypt, blocks[k], k)
    ensures DecryptAll(decrypt, key, blocks[..n]) == Some(raw[..Min(n * BLOCK_SIZE, |raw|)])
  {
    if n > 0 {
      DecryptPrefix(raw, key, ivSource, encrypt, decrypt, blocks, n - 1);
      assert blocks[..n][..n - 1] == blocks[..n - 1];
      var b := blocks[n - 1];
      assert EncryptsChunk(raw, key, ivSource, encrypt, blocks[n - 1], n - 1);
      assert decrypt(key, b.ciphertext, b.iv, b.authTag) == Some(Chunk(raw, n - 1));
      assert (n - 1) * BLOCK_SIZE < |raw|;
      assert raw[..(n - 1) * BLOCK_SIZE] + raw[(n - 1) * BLOCK_SIZE .. Min(n * BLOCK_SIZE, |raw|)]
          == raw[..Min(n * BLOCK_SIZE, |raw|)];
    }
  }

  /**
   * Round trip: when decryption inverts encryption, decrypting the blocks of a
   * successful split and joining them gives back the original file.
   */
  lemma DecryptRecoversFile(raw: seq<byte>, key: Digest, ivSource: nat -> Option<Iv>, encrypt: Cipher,
                            decrypt: Decipher, blocks: seq<EncryptedBlock>)
    requires Inverts(encrypt, decrypt)
    requires |blocks| == NumBlocks(|raw|)
    requires forall k :: 0 <= k < |blocks| ==> EncryptsChunk(raw, key, ivSource, encrypt, blocks[k], k)
    ensures DecryptAll(decrypt, key, blocks) == Some(raw)
  {
    DecryptPrefix(raw, key, ivSource, encrypt, decrypt, blocks, |blocks|);
    assert blocks[..|blocks|] == blocks;
    assert Min(|blocks| * BLOCK_SIZE, |raw|) == |raw|;
    assert raw[..|raw|] == raw;
  }

  /**
   * The fingerprint commits to every block: each block's hash has an inclusion proof
   * in the storage node's tree over the same blocks that verifies against it.
   */
  lemma FingerprintCommitsToBlocks(cr: Crypto, blocks: seq<EncryptedBlock>, i: nat)
    requires i < |blocks|
    ensures MerkleTree.GetProof(MerkleTree.Build(cr.sha256, StorageNode.BlockHashes(cr, blocks)), i).Some?
    ensures MerkleTree.VerifyProof(cr.sha256, BlockHash(cr, blocks[i]),
              MerkleTree.GetProof(MerkleTree.Build(cr.sha256, StorageNode.BlockHashes(cr, blocks)), i).value,
              Fingerprint(cr, blocks))
  {
    StorageNode.StoredBlockProvable(cr, blocks, i);
  }

  // ---------------------------------------------------------------------------
  // Checking a proof package
  // ---------------------------------------------------------------------------

  /**
   * The parsing loop of `verify_proof`: one step per whole 33-byte record (32-byte
   * sibling, then a side byte that means "left" exactly when it is 0x01); a trailing
   * remainder shorter than a record is ignored.
   */
  function ParsePath(bytes: seq<byte>): (path: seq<MerkleTree.PathStep>)
    ensures |path| == |bytes| / 33
    ensures forall j :: 0 <= j < |path| ==>
      path[j].sibling == bytes[33 * j .. 33 * j + 32] && (path[j].isLeft <==> bytes[33 * j + 32] == 1)
  {
    if |bytes| < 33 then []
    else
      var rest := ParsePath(bytes[33..]);
      assert forall j :: 1 <= j <= |rest| ==> bytes[33..][33 * (j - 1) .. 33 * (j - 1) + 32] == bytes[33 * j .. 33 * j + 32];
      [MerkleTree.PathStep(bytes[..32], bytes[32] == 1)] + rest
  }

  /** Parsing inverts the proof builder's serialisation. */
  lemma ParseSerializeRoundTrip(path: seq<MerkleTree.PathStep>)
    ensures ParsePath(ProofBuilder.SerializePath(path)) == path
  {
    var p := ParsePath(ProofBuilder.SerializePath(path));
    assert |p| == |path|;
    forall j | 0 <= j < |path|
      ensures p[j] == path[j]
    {
    }
  }

  /**
   * `verify_proof`: accepts exactly when the enclave signature verifies and the clock
   * lies in the package's window with the network delay. The path is parsed but never
   * used, and neither the tree nor the challenge plays any part.
   */
  function VerifyProof(cr: Crypto, proof: ProofPackage, pubKey: PubKey, tree: MerkleTree.Tree, now: u64): (ok: bool)
    ensures ok <==> SingleVerifier.SignatureOk(cr, proof, pubKey) && TimeUtils.IsTimeValid(proof.tStart, proof.tSlot, now, NETWORK_DELAY)
  {
    if !SingleVerifier.SignatureOk(cr, proof, pubKey) then false
    else
      // The source parses the path here and then never reads it.
      var path := ParsePath(proof.merklePath);
      TimeUtils.IsTimeValid(proof.tStart, proof.tSlot, now, NETWORK_DELAY)
  }

  /** The data owner is no stricter than the on-chain verifier with the same clock and delay. */
  lemma AcceptsWhatVerifierAccepts(cr: Crypto, proof: ProofPackage, pubKey: PubKey, tree: MerkleTree.Tree,
                                   currentRep: real, now: u64)
    requires SingleVerifier.Verify(cr, proof, pubKey, currentRep, now, NETWORK_DELAY)
    ensures VerifyProof(cr, proof, pubKey, tree, now)
  {
  }

  /** The path bytes and the tree never change the data owner's verdict. */
  lemma IgnoresPathAndTree(cr: Crypto, proof: ProofPackage, pubKey: PubKey, t1: MerkleTree.Tree, t2: MerkleTree.Tree,
                           now: u64, path: seq<byte>)
    ensures VerifyProof(cr, proof.(merklePath := path), pubKey, t1, now) == VerifyProof(cr, proof, pubKey, t2, now)
  {
  }
}
