/**
 * Shared vocabulary of the proof-of-storage-time protocol: fixed-width integers and
 * byte strings, the protocol records (encrypted block, proof package, segment
 * credential, reputation parameters), the configuration constants, the abstract
 * cryptographic capabilities, and little-endian integer encoding.
 */
module Common {

  // ---------------------------------------------------------------------------
  // Machine integers and fixed-size byte strings
  // ---------------------------------------------------------------------------

  const U32_LIMIT: int := 0x1_0000_0000
  const U64_LIMIT: int := 0x1_0000_0000_0000_0000

  type byte = x: int | 0 <= x < 0x100
  type u32 = x: int | 0 <= x < 0x1_0000_0000
  type u64 = x: int | 0 <= x < 0x1_0000_0000_0000_0000

  /** A 32-byte string: SHA-256 / SHA3-256 digests, challenges, AES keys. */
  type Digest = s: seq<byte> | |s| == 32 witness seq(32, i => 0)
  /** A 64-byte string: ECDSA signatures and segment anchors. */
  type Bytes64 = s: seq<byte> | |s| == 64 witness seq(64, i => 0)
  type Signature = Bytes64
  /** An uncompressed public curve point. */
  type PubKey = s: seq<byte> | |s| == 65 witness seq(65, i => 0)
  type Iv = s: seq<byte> | |s| == 12 witness seq(12, i => 0)
  type AuthTag = s: seq<byte> | |s| == 16 witness seq(16, i => 0)
  /** The memory image of one 8-byte machine word (a `double` here). */
  type Bytes8 = s: seq<byte> | |s| == 8 witness seq(8, i => 0)

  /** n zero bytes. */
  function ZeroBytes(n: nat): (z: seq<byte>)
    ensures |z| == n && forall i :: 0 <= i < n ==> z[i] == 0
  {
    seq(n, i => 0)
  }

  /** The all-zero digest, returned as the root of an empty tree. */
  const ZERO_DIGEST: Digest := ZeroBytes(32)

  // ---------------------------------------------------------------------------
  // Failure-carrying results
  // ---------------------------------------------------------------------------

  /** Outcome of an operation that reports failure by returning -1 / false. */
  datatype Option<+T> = None | Some(value: T)

  /** Outcome of an operation that throws `std::invalid_argument` on failure. */
  datatype Result<+T> = Ok(value: T) | Error(message: string)

  // ---------------------------------------------------------------------------
  // Configuration constants
  // ---------------------------------------------------------------------------

  const T_MIN: u32 := 300
  const T_MAX: u32 := 86400
  const DELTA_REP: real := 0.1
  const REP_INC: real := 0.05
  const REP_DEC: real := 0.1
  const MIN_REP: real := 0.0
  const MAX_REP: real := 1.0
  const NETWORK_DELAY: u32 := 30
  const BLOCK_SIZE: nat := 1024

  /** A reputation forced into [MIN_REP, MAX_REP]; values already inside are kept. */
  function ClampRep(rep: real): (c: real)
    ensures MIN_REP <= c <= MAX_REP
    ensures MIN_REP <= rep <= MAX_REP ==> c == rep
    ensures rep < MIN_REP ==> c == MIN_REP
    ensures rep > MAX_REP ==> c == MAX_REP
  {
    if rep < MIN_REP then MIN_REP else if rep > MAX_REP then MAX_REP else rep
  }

  // ---------------------------------------------------------------------------
  // Protocol records
  // ---------------------------------------------------------------------------

  datatype EncryptedBlock = EncryptedBlock(ciphertext: seq<byte>, iv: Iv, authTag: AuthTag)

  datatype ProofPackage = ProofPackage(
    timeSlotId: u64,
    prevHash: Digest,
    repSnapshot: real,
    tSlot: u32,
    randomR: Digest,
    challengeIdx: u32,
    merklePath: seq<byte>,
    enclaveSig: Signature,
    tStart: u64)

  datatype SegmentCredential = SegmentCredential(
    repLow: real,
    repHigh: real,
    epochStart: u64,
    epochEnd: u64,
    segRoot: Digest,
    anchorHash: Bytes64)

  datatype ReputationParams = ReputationParams(initRep: real, deltaRep: real, tMin: u32, tMax: u32)

  const DEFAULT_PARAMS: ReputationParams := ReputationParams(0.5, 0.1, 300, 86400)

  // ---------------------------------------------------------------------------
  // Abstract cryptographic capabilities
  // ---------------------------------------------------------------------------

  /**
   * The primitives the protocol consumes but does not define:
   *  - `sha256`: the hash of Merkle internal nodes and of encrypted blocks;
   *  - `contentHash`: SHA3-256 over a proof package, used for chaining and segment leaves;
   *  - `doubleBytes`: the 8-byte memory image of a reputation value;
   *  - `sigValid`: ECDSA verification of a message under a public key.
   */
  datatype Crypto = Crypto(
    sha256: seq<byte> -> Digest,
    contentHash: ProofPackage -> Digest,
    doubleBytes: real -> Bytes8,
    sigValid: (PubKey, seq<byte>, Signature) -> bool)

  /** The leaf digest of an encrypted block: SHA-256 over iv ‖ ciphertext ‖ tag. */
  function BlockHash(cr: Crypto, b: EncryptedBlock): Digest
  {
    cr.sha256(Concat(Concat(b.iv, b.ciphertext), b.authTag))
  }

  // ---------------------------------------------------------------------------
  // Little-endian integers
  // ---------------------------------------------------------------------------

  function Pow256(n: nat): (p: nat)
    ensures p >= 1
  {
    if n == 0 then 1 else 256 * Pow256(n - 1)
  }

  /** The n-byte little-endian image of x (the low n bytes when x does not fit). */
  function LittleEndian(x: nat, n: nat): (s: seq<byte>)
    ensures |s| == n
  {
    if n == 0 then [] else [x % 256] + LittleEndian(x / 256, n - 1)
  }

  /** The unsigned integer whose little-endian image is s. */
  function FromLittleEndian(s: seq<byte>): (x: nat)
    ensures x < Pow256(|s|)
  {
    if |s| == 0 then 0 else s[0] + 256 * FromLittleEndian(s[1..])
  }

  /** Decoding an n-byte little-endian image gives back every value that fits in n bytes. */
  lemma {:induction false} LittleEndianRoundTrip(x: nat, n: nat)
    requires x < Pow256(n)
    ensures FromLittleEndian(LittleEndian(x, n)) == x
  {
    if n > 0 {
      LittleEndianRoundTrip(x / 256, n - 1);
      assert LittleEndian(x, n)[1..] == LittleEndian(x / 256, n - 1);
    }
  }

  /** Byte-string concatenation, typed so that two digests give a 64-byte string. */
  function Concat(a: seq<byte>, b: seq<byte>): (c: seq<byte>)
    ensures |c| == |a| + |b| && c[..|a|] == a && c[|a|..] == b
  {
    a + b
  }

  function Min(a: int, b: int): int
  {
    if a <= b then a else b
  }

  function MinReal(a: real, b: real): real
  {
    if a <= b then a else b
  }

  function MaxReal(a: real, b: real): real
  {
    if a >= b then a else b
  }

  function AbsReal(x: real): real
  {
    if x < 0.0 then -x else x
  }
}
