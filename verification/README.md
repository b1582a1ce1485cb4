# Proof of storage time: a Dafny model

This project models the protocol layer of a TEE-based proof-of-storage-time system.

The protocol runs as follows:
- A data owner splits a file into 1024-byte blocks, encrypts them and fingerprints them with a Merkle root.
- A storage node keeps the encrypted blocks and builds the same Merkle tree.
- In every time slot, the node's enclave draws a random challenge, picks a block index from it and extracts the block's Merkle path. It signs a fixed 60-byte message into a *proof package*.
- A slot's length depends on the node's reputation: T = 300 + 86100 · (1 − rep) seconds, truncated.
- Packages are grouped into *segment credentials*. Each credential commits to its packages through a Merkle root over their content hashes and an anchor made of the first and last package hashes.
- Two simulated on-chain contracts consume these artefacts:
  - the verification contract checks single packages and segment credentials;
  - the reputation contract raises a node's reputation by 0.05 per accepted proof and lowers it by 0.1 per rejected one, within [0, 1].

The model is functional. Every record is an immutable datatype and every operation is a pure function or a method over such values. The stateful classes (the reputation map, the credential store and the block store) become datatypes whose operations return the new state. Operations that throw return `Result.Error` with the exception's message. Operations that return -1 or false return `Option.None`, or a status code when the source reports one.

The cryptography is abstract: SHA-256, SHA3-256 over a package, ECDSA and AES-GCM are uninterpreted functions. The enclave's random draws and the clock are inputs: a draw is an `Option` (None when the draw fails), a stream of draws is a function from the draw number, and clock readings are plain parameters.

Modules, one per source file:

| module | file | source |
|---|---|---|
| `Common` | common.dfy | records, constants, abstract crypto, little-endian encoding |
| `MerkleTree` | merkle_tree.dfy | src/utils/merkle_tree.cpp |
| `Challenge` | challenge.dfy | src/core/proof_generator/challenge.cpp |
| `TimeSlot` | time_slot.dfy | src/core/proof_generator/time_slot.cpp |
| `TimeUtils` | time_utils.dfy | src/utils/time_utils.cpp |
| `ProofBuilder` | proof_builder.dfy | src/core/proof_generator/proof_builder.cpp |
| `SingleVerifier` | single_verifier.dfy | src/core/verifier/single_verifier.cpp |
| `AggregateVerifier` | aggregate_verifier.dfy | src/core/verifier/aggregate_verifier.cpp |
| `ReputationContract` | reputation_contract.dfy | src/blockchain_sim/reputation_contract.cpp |
| `VerificationContract` | verification_contract.dfy | src/blockchain_sim/verification_contract.cpp |
| `StorageNode` | storage_node.dfy | src/core/init/storage_node.cpp |
| `DataOwner` | data_owner.dfy | src/core/init/data_owner.cpp |
| `AttestationSim` | attestation_sim.dfy | src/tee_simulator/attestation_sim.cpp |

### Slot length at reputation 0.5

The formula in the code gives 300 + 86100 · 0.5 = 43350 seconds for a reputation of 0.5 (`TimeSlot.SlotLengthAtHalf`).

### Behaviour of the code worth knowing

These are proved properties of the code as written:
- **The challenge index is unchecked.** It is neither signed nor checked by any verifier. Altering it changes no verdict and no reputation (`SingleVerifier.IgnoresIndexAndChain`, `VerificationContract.SubmitIgnoresChallengeIndex`). The repository's tests expect an altered index to be rejected.
- **Reputation is clamped at 0.** Ten failures from 0.5 give 0.0 (`ReputationContract.FailuresReachFloor`), not the −0.5 a repository test expects.
- **Only credentials that start at epoch 0 are accepted.** The verification contract checks every segment credential as a chain of length one, so any other credential is refused (`VerificationContract.RejectsLaterEpochs`).
- **Epoch numbers can wrap.** The aggregate verifier computes `last_end + 1` in 64-bit arithmetic. A credential ending at 2^64 − 1 may therefore be followed by one starting again at 0 (`AggregateVerifier.WrappedEpochIsContiguous`).
- **The data owner's check ignores the path.** `verify_proof` parses the Merkle path and never uses it. It accepts on the signature and the time window alone (`DataOwner.VerifyProof`, `DataOwner.IgnoresPathAndTree`).
- **Attestation checks only the key.** Report verification inspects only the length and the embedded key (`AttestationSim.SignatureBytesIgnored`).
- **Tamper evidence rests on collisions.** It is stated as: a forged leaf that verifies exhibits two different inputs with the same SHA-256 digest (`MerkleTree.TamperedLeafRevealsCollision`). No injective map into 32-byte digests exists, so that is the form in which "a collision-free hash rejects tampered leaves" can be proved.

## Model

| member | source | states |
|---|---|---|
| `Common.ClampRep` | src/blockchain_sim/reputation_contract.cpp:56-57 | A reputation is forced into [MIN_REP, MAX_REP]. In-range values are kept, values below become MIN_REP and values above become MAX_REP. |
| `Common.LittleEndianRoundTrip` | src/core/proof_generator/challenge.cpp:12-13 | Reading back the n-byte little-endian image of a value that fits in n bytes gives the value. |
| `MerkleTree.NextLayer` | src/utils/merkle_tree.cpp:13-37 | The layer above n nodes has ⌈n/2⌉ nodes. Parent j is H(node 2j ‖ node 2j+1), and an odd last node is hashed with itself. |
| `MerkleTree.BuildLayers` | src/utils/merkle_tree.cpp:8-37 | Layers are built upward from the leaves until a layer of one node. Every lower layer has more than one node, and each layer is the next layer of the one below. |
| `MerkleTree.Build` | src/utils/merkle_tree.cpp:6-38 | No leaves give no layers. Otherwise the first layer is the leaves and the tree is consistent with H. |
| `MerkleTree.BuildIsWellShaped` | src/utils/merkle_tree.cpp:6-38 | Every constructed tree has nonempty layers, each half (rounded up) the one below. |
| `MerkleTree.GetProof` | src/utils/merkle_tree.cpp:44-73 | Fails exactly when the tree is empty or the index is not a leaf. Otherwise the path has one step per layer below the root. |
| `MerkleTree.EmptyTree` | src/utils/merkle_tree.cpp:6-42 | An empty leaf list gives no layers, the all-zero root and no proof for any index. |
| `MerkleTree.SingleLeaf` | src/utils/merkle_tree.cpp:6-73 | A single leaf is the root, its proof is empty, and that proof verifies. |
| `MerkleTree.LayerSizes` | src/utils/merkle_tree.cpp:8-37 | The leaf layer has one node per leaf and the top layer exactly one. There is a single layer exactly when there is a single leaf. |
| `MerkleTree.ProofSides` | src/utils/merkle_tree.cpp:54-70 | Step j's side flag is true exactly when the path's node on layer j has an even index. Its sibling is the pair partner, and an unpaired last node is emitted as itself with flag true. |
| `MerkleTree.FoldPathFrom` | src/utils/merkle_tree.cpp:75-99 | Folding the path of any node, on any layer, reaches the top node of the tree. |
| `MerkleTree.ProofRoundTrip` | src/utils/merkle_tree.cpp:44-99 | For every leaf index of any leaf count, the proof from get_proof verifies that leaf against get_root. |
| `MerkleTree.FoldCollision` | src/utils/merkle_tree.cpp:78-98 | If two different digests fold along the same path to the same value, H has a collision. |
| `MerkleTree.TamperedLeafRevealsCollision` | src/utils/merkle_tree.cpp:75-99 | A leaf other than leaves[i] that verifies with the proof of i against the root exhibits an H collision. |
| `Challenge.GenerateRandomChallenge` | src/core/proof_generator/challenge.cpp:4-6 | The status is 0 exactly when the random source succeeded, and -1 otherwise. |
| `Challenge.ChallengeWord` | src/core/proof_generator/challenge.cpp:12-13 | The first four challenge bytes, read little-endian, form a 32-bit value. |
| `Challenge.ChallengeIndex` | src/core/proof_generator/challenge.cpp:8-17 | Zero blocks give index 0 with no division. Otherwise the index is the remainder of the challenge word divided by the count truncated to 32 bits, so it is smaller than that truncated count and hence smaller than the count. For counts below 2^32 the truncation changes nothing. |
| `Challenge.IndexUsesFirstFourBytes` | src/core/proof_generator/challenge.cpp:13-16 | Challenges that agree on their first four bytes get the same index. |
| `Challenge.GenerateBatchChallenges` | src/core/proof_generator/challenge.cpp:19-35 | Status 0 comes exactly when all `count` draws succeed, giving `count` pairs. Otherwise -1 comes at the first failed draw, with only the pairs before it. Every pair is (draw k, its index). |
| `TimeSlot.FormulaSlot` | src/core/proof_generator/proof_builder.cpp:44 | For rep in [0, 1] the truncated formula lies in [T_MIN, T_MAX] and is the floor of the exact formula. For every rep whose conversion to `uint32` is defined, the result fits in 32 bits. |
| `TimeSlot.CalculateSlotLength` | src/core/proof_generator/time_slot.cpp:14-22 | Rep is clamped first. Rep ≥ 1 gives T_MIN, rep ≤ 0 gives T_MAX, and every result lies in [T_MIN, T_MAX] and equals the truncated formula of the clamped rep. |
| `TimeSlot.SlotLengthNonIncreasing` | src/core/proof_generator/time_slot.cpp:14-22 | A higher reputation never gives a longer slot. |
| `TimeSlot.SlotLengthAtHalf` | src/core/proof_generator/time_slot.cpp:20-21 | Reputation 0.5 gives 43350 seconds. |
| `TimeSlot.NewTimeSlot` | src/core/proof_generator/time_slot.cpp:5-8 | A new slot has id 0, is not running, keeps the initial rep, and has the length computed from that rep. |
| `TimeSlot.UpdateReputation` | src/core/proof_generator/time_slot.cpp:40-43 | It stores the new rep and the length computed from it. The slot id and the running flag are kept. |
| `TimeSlot.CurrentSlotLength` | src/core/proof_generator/time_slot.cpp:49-51 | On a consistent state, the stored length lies in [T_MIN, T_MAX] and equals the length computed from the stored rep. |
| `TimeUtils.WindowInMilliseconds` | src/utils/time_utils.cpp:10-18 | A submission is valid exactly when it falls between the start of t_start's second and the end of the second that lies t_slot + max_delay seconds later. |
| `TimeUtils.SubmitAtStartIsValid` | src/utils/time_utils.cpp:16-17 | Submitting at t_start is always valid. |
| `TimeUtils.OneSecondEarlyIsInvalid` | src/utils/time_utils.cpp:16 | For t_start ≥ 1000, submitting 1000 ms earlier is never valid. |
| `TimeUtils.WindowMonotoneInDelay` | src/utils/time_utils.cpp:17 | A submission that is valid under some delay tolerance is also valid under any larger one. |
| `TimeUtils.TimeDiffSeconds` | src/utils/time_utils.cpp:20-24 | The result is the number of whole seconds in the absolute distance between the timestamps. |
| `TimeUtils.TimeDiffSymmetric` | src/utils/time_utils.cpp:20-24 | The difference is symmetric, and zero for equal timestamps. |
| `ProofBuilder.SignedMessageLayout` | src/core/proof_generator/proof_builder.cpp:53-62 | The signed message is 60 bytes. Slot id, start time, slot length, reputation image and challenge can each be read back from a fixed offset. |
| `ProofBuilder.SignedMessageInjective` | src/core/proof_generator/proof_builder.cpp:53-62 | Equal messages imply equal slot id, start, slot length, reputation image and challenge. |
| `ProofBuilder.SerializePath` | src/core/proof_generator/proof_builder.cpp:37-41 | The path becomes 33 bytes per step: the 32-byte sibling, then 0x01 for left or 0x00 for right. |
| `ProofBuilder.PackageSlot` | src/core/proof_generator/proof_builder.cpp:44 | The builder does not clamp. For any rep whose conversion is defined, the slot is the formula truncated toward zero: its floor when the formula is nonnegative, 0 otherwise. For rep in [0, 1] it lies in [T_MIN, T_MAX] and equals the slot timer's length. Above 1 it is below T_MIN, and below 0 it is at least T_MAX. |
| `ProofBuilder.BuildProofPackage` | src/core/proof_generator/proof_builder.cpp:13-69 | It fails when the draw fails, when the tree has no path for the index, or (and only then, once those succeed) when signing fails. A package carries the caller's fields verbatim, the challenge and its index, and the slot length computed from the unclamped reputation (in [T_MIN, T_MAX] when rep is in [0, 1]). It also carries the serialised path of length 33 · levels and the signature over the message. |
| `ProofBuilder.ContentHashes` | src/core/proof_generator/proof_builder.cpp:85-90 | The segment's leaves are the packages' content hashes, in input order. |
| `ProofBuilder.Anchor` | src/core/proof_generator/proof_builder.cpp:94-99 | The anchor's first half is the first package's content hash and its second half is the last one's. |
| `ProofBuilder.BuildSegmentCredential` | src/core/proof_generator/proof_builder.cpp:71-102 | It fails exactly on an empty list. Otherwise the band and epochs are copied verbatim, the root is the segment tree's root, and the anchor is the first and last content hashes. |
| `ProofBuilder.SegmentCommitsToEveryPackage` | src/core/proof_generator/proof_builder.cpp:84-92 | Every package's content hash has an inclusion proof that verifies against the credential's seg_root. |
| `SingleVerifier.Check` | src/core/verifier/single_verifier.cpp:9-55 | The package is accepted exactly when signature, window, reputation drift, slot length and path format all pass. A rejection names the first failing check, after all earlier ones passed. |
| `SingleVerifier.IgnoresIndexAndChain` | src/core/verifier/single_verifier.cpp:9-55 | Changing challenge_idx or prev_hash never changes the verdict. |
| `SingleVerifier.BuiltPackageWellFormed` | src/core/verifier/single_verifier.cpp:41-52 | A built package always passes the slot-length and path-format checks. Its signature passes when the signer matches the key. |
| `SingleVerifier.BuiltPackageAccepted` | src/core/verifier/single_verifier.cpp:9-55 | A built package is accepted by any verifier whose reputation is within DELTA_REP of the snapshot and whose clock is in the window of the package's own slot length, provided its signer matches the key. |
| `AggregateVerifier.Verify` | src/core/verifier/aggregate_verifier.cpp:10-58 | It accepts exactly a nonempty list whose epochs start at 0 and follow each other (with 64-bit wrap) in nonempty ranges, and whose bands lie in [0, 1] and rise by at most 0.001. Root, key and block count play no part. |
| `AggregateVerifier.ContiguousEpochsAreOrdered` | src/core/verifier/aggregate_verifier.cpp:18-39 | Without wrap, an accepted chain has disjoint, increasing epoch ranges: every later credential starts after every earlier one ends. |
| `AggregateVerifier.WrappedEpochIsContiguous` | src/core/verifier/aggregate_verifier.cpp:29 | A credential ending at 2^64 − 1 may be followed by one starting at 0. |
| `AggregateVerifier.SpotCheck` | src/core/verifier/aggregate_verifier.cpp:60-117 | It accepts exactly when the list is nonempty, the count is nonzero, root and anchor recompute to the credential's, and each of the min(count, N) sampled packages verifies at the band's midpoint with delay 30. |
| `AggregateVerifier.BuiltCredentialCommitmentsMatch` | src/core/verifier/aggregate_verifier.cpp:68-92 | A credential built from a package list passes the spot check's root and anchor comparison for that same list. |
| `ReputationContract.Deploy` | src/blockchain_sim/reputation_contract.cpp:5-8 | It stores the parameters and sets the node to the unclamped initial reputation, overwriting any entry. Other nodes are untouched. |
| `ReputationContract.GetReputation` | src/blockchain_sim/reputation_contract.cpp:10-16 | It returns the stored value of a registered node and "Node not found" otherwise. |
| `ReputationContract.HasNode` | src/blockchain_sim/reputation_contract.cpp:46-48 | It is true exactly when get_reputation would not throw. |
| `ReputationContract.DeployThenGet` | src/blockchain_sim/reputation_contract.cpp:42-44 | After deploy, get_params returns the deployed parameters and the node reads back the initial reputation. |
| `ReputationContract.Adjust` | src/blockchain_sim/reputation_contract.cpp:24-37 | Success gives min(rep + REP_INC, MAX_REP) and never lowers an in-range value. Failure gives max(rep − REP_DEC, MIN_REP) and never raises one. An in-range value stays in range. |
| `ReputationContract.UpdateReputation` | src/blockchain_sim/reputation_contract.cpp:18-40 | An unknown node gives "Node not found". Otherwise only that node changes, by one Adjust step. Parameters and the node set are kept, and the range invariant is preserved. |
| `ReputationContract.AddNodeDefault` | src/blockchain_sim/reputation_contract.h:35 | `add_node` without an initial reputation fails exactly for an existing node. Otherwise it registers the node at 0.5, the middle of the range, and changes no other node. |
| `ReputationContract.AddNode` | src/blockchain_sim/reputation_contract.cpp:50-60 | An existing node gives "Node already exists". Otherwise the node is inserted with its initial reputation clamped, nothing else changes, and the range invariant is preserved. |
| `ReputationContract.DeployPreservesRange` | src/blockchain_sim/reputation_contract.cpp:5-8 | Deploying an in-range initial reputation keeps every reputation in range. |
| `ReputationContract.AddThenGet` | src/blockchain_sim/reputation_contract.cpp:50-60 | After adding a new node, it reads back its clamped initial reputation. |
| `ReputationContract.RepeatedFailures` | src/blockchain_sim/reputation_contract.cpp:31-37 | n failures from rep ≥ 0 give max(rep − 0.1·n, 0). |
| `ReputationContract.RepeatedSuccesses` | src/blockchain_sim/reputation_contract.cpp:25-30 | n successes from rep ≤ 1 give min(rep + 0.05·n, 1). |
| `ReputationContract.FailuresReachFloor` | src/blockchain_sim/reputation_contract.cpp:31-37 | Ten or more failures bring any in-range reputation to 0 and keep it there. |
| `ReputationContract.SuccessesReachCeiling` | src/blockchain_sim/reputation_contract.cpp:25-30 | Twenty or more successes bring any in-range reputation to 1 and keep it there. |
| `ReputationContract.UpdateTimes` | src/blockchain_sim/reputation_contract.cpp:18-40 | n updates of a registered node apply n Adjust steps to it alone and keep the node set. They fail exactly for an unknown node. |
| `VerificationContract.GetNodeCredentials` | src/blockchain_sim/verification_contract.cpp:53-59 | It returns the node's stored credentials, or the empty list for a node with none. |
| `VerificationContract.SubmitSingleProof` | src/blockchain_sim/verification_contract.cpp:11-31 | An unknown node gives false and no change. Otherwise the verdict is the single verifier's at the node's reputation and NETWORK_DELAY, and exactly one Adjust step with that verdict is applied to that node only. |
| `VerificationContract.SubmitKeepsReputationInRange` | src/blockchain_sim/verification_contract.cpp:11-31 | A submission keeps all reputations in range. An accepted proof never lowers the node's reputation and a rejected one never raises it. |
| `VerificationContract.SubmitIgnoresChallengeIndex` | src/blockchain_sim/verification_contract.cpp:11-31 | Altering a package's challenge index changes neither the verdict nor the resulting reputations. |
| `VerificationContract.SubmitSegmentCredential` | src/blockchain_sim/verification_contract.cpp:33-51 | A credential is accepted exactly when it passes as a one-element chain and passes a three-sample spot check. Acceptance appends it to the node's list, rejection changes nothing, and other nodes' lists never change. |
| `VerificationContract.RejectsLaterEpochs` | src/blockchain_sim/verification_contract.cpp:39-41 | A credential whose epochs do not start at 0 is always refused and nothing is stored. |
| `StorageNode.BlockHashes` | src/core/init/storage_node.cpp:24-27 | The leaves are the hash of IV ‖ ciphertext ‖ tag of each block, in order. |
| `StorageNode.InitTee` | src/core/init/storage_node.cpp:4-16 | It fails exactly when key generation fails. Otherwise the report is the simulator's report for the generated key: type byte, key, 64 fill bytes. It verifies under that key. |
| `StorageNode.BuildMerkleTree` | src/core/init/storage_node.cpp:18-32 | No blocks give -1 and leave the tree untouched. Otherwise the status is 0 and the tree is built over the block hashes in order, one leaf per block. |
| `StorageNode.GetBlock` | src/core/init/storage_node.cpp:39-46 | It returns the stored block at the index, or nothing at or past the count. |
| `StorageNode.StoreThenGet` | src/core/init/storage_node.cpp:34-50 | After storing a list, the count is its length and every index reads back its block. Earlier contents are gone. |
| `StorageNode.StoredBlockProvable` | src/core/init/storage_node.cpp:18-32 | Every stored block's hash has a proof that verifies against the root of the node's tree. |
| `DataOwner.NumBlocks` | src/core/init/data_owner.cpp:14 | The block count is the least n with n · 1024 ≥ the file size. |
| `DataOwner.Chunk` | src/core/init/data_owner.cpp:20-24 | Every chunk is nonempty and at most 1024 bytes, and every chunk but the last is exactly 1024. |
| `DataOwner.ChunksPrefix` | src/core/init/data_owner.cpp:20-24 | The first n chunks, joined, are the file's first min(1024·n, size) bytes. |
| `DataOwner.ChunksPartitionFile` | src/core/init/data_owner.cpp:11-24 | The chunks, joined in order, are exactly the file. |
| `DataOwner.SplitAndEncrypt` | src/core/init/data_owner.cpp:7-53 | Status 0 comes exactly when every block's IV draw and encryption succeed. Each block then encrypts its chunk under its IV, and the fingerprint is the Merkle root over the block hashes (zero when empty). Otherwise -1 comes at the first failing block, with the blocks before it and the fingerprint untouched. |
| `DataOwner.DecryptRecoversFile` | src/core/init/data_owner.cpp:20-42 | When decryption inverts encryption, decrypting a successful split's blocks in order gives back the file. |
| `DataOwner.FingerprintCommitsToBlocks` | src/core/init/data_owner.cpp:45-50 | Each block's hash has an inclusion proof that verifies against the fingerprint. |
| `DataOwner.ParsePath` | src/core/init/data_owner.cpp:75-87 | One step per whole 33-byte record, with the sibling from the first 32 bytes and "left" exactly when the 33rd byte is 0x01. A shorter remainder is ignored. |
| `DataOwner.ParseSerializeRoundTrip` | src/core/init/data_owner.cpp:75-87 | Parsing the builder's serialisation of a path gives back that path. |
| `DataOwner.VerifyProof` | src/core/init/data_owner.cpp:55-100 | It accepts exactly when the signature verifies and the given time is in the window with NETWORK_DELAY. |
| `DataOwner.AcceptsWhatVerifierAccepts` | src/core/init/data_owner.cpp:55-100 | Every package the single verifier accepts at a time is also accepted by the data owner at that time. |
| `DataOwner.IgnoresPathAndTree` | src/core/init/data_owner.cpp:74-99 | Neither the path bytes nor the tree affects the verdict. |
| `AttestationSim.CreateAttestation` | src/tee_simulator/attestation_sim.cpp:6-12 | The report is 130 bytes: 0x01, then the key, then 64 × 0xAA. |
| `AttestationSim.VerifyAttestation` | src/tee_simulator/attestation_sim.cpp:15-22 | It returns 0 exactly when the report has 130 bytes and bytes 1..65 equal the key, and -1 otherwise. |
| `AttestationSim.CreateThenVerify` | src/tee_simulator/attestation_sim.cpp:6-22 | A created report verifies under its key. |
| `AttestationSim.ReportBindsKey` | src/tee_simulator/attestation_sim.cpp:15-22 | A report verifies under at most one key. |
| `AttestationSim.SignatureBytesIgnored` | src/tee_simulator/attestation_sim.cpp:15-22 | Any type byte and any 64 signature bytes around the key verify. |

## Left out

- Cryptography: ECDSA signing and verification, AES-GCM, SHA-256 and SHA3-256 are OpenSSL calls. They are uninterpreted functions bundled in `Common.Crypto` (`sigValid`, `sha256`, `contentHash`), plus the `Signer`, `Cipher` and `Decipher` function types. The private key is not modelled.
- The content hash covers the raw memory of a `ProofPackage`, including vector internals and padding. It is modelled as a function of the logical package value.
- The 8-byte memory image of a `double` is the abstract `doubleBytes`. Reputations are reals, so floating-point rounding is not modelled.
- The random source (`tee_get_random`), the clock (`get_current_timestamp`) and the time-seeded generator of the spot check are inputs. A draw is an `Option`, a sequence of draws is a stream, and clock readings are parameters.
- `TimeSlot::start`, `stop`, `timer_loop` and the destructor manage a timer thread and are not modelled. `get_current_slot_id` is modelled without a contract, because it only reads the stored id.
- `VerificationContract::deploy` is empty in the source and has no counterpart.
- main.cpp is console orchestration and is not part of this model.
- Failed operations that in the source leave an output half-written, such as a package with the challenge filled in but no signature, return None or a status here. The partial contents are not modelled.
- `SingleVerifier.Check`: the expected slot is the unclamped formula of `rep_snapshot` converted to `uint32` (src/core/verifier/single_verifier.cpp:41-42). For a `rep_snapshot` outside `TimeSlot.SlotRepresentable` (formula at most −1 or at least 2^32) that conversion is undefined in C++, so the program has no defined verdict there. The model compares against the mathematical truncation anyway, which is a modelling choice. Inside that range, the source then casts both lengths to `int`. The model compares them as mathematical integers, which also differs when either length is 2^31 or more.
- `ProofBuilder.BuildProofPackage`: requires the unclamped slot formula to truncate into [0, 2^32), roughly −49882 < rep < 1.0035. The builder does not clamp, so reputations outside [0, 1] inside that range are modelled and give slot lengths outside [T_MIN, T_MAX]. Only beyond it is the C++ conversion to `uint32` undefined.
- `ProofBuilder.PackageSlot`: requires the same representable range, for the same reason.
- `Challenge.ChallengeIndex`: requires a block count that is 0 or not a multiple of 2^32. The count is truncated to 32 bits before the modulo, so such a count would divide by zero. Every other count of 2^32 or more is modelled with the truncation, and the contract bounds the index by the truncated count.
- `AggregateVerifier.SpotCheck`: the sampled indices are an input. It requires exactly min(check_count, N) of them, each below N, which is what the source's uniform distribution produces.
- `AggregateVerifier.ContiguousEpochsAreOrdered`: requires every epoch end to be below 2^64 − 1. With wrap-around the ranges need not be ordered (`AggregateVerifier.WrappedEpochIsContiguous`).
- `StorageNode.InitTee`: key generation is an input (the public key, or None on failure).
- Two repository test expectations are not met by the code and are not encoded: that an altered challenge index is rejected, and that ten failures leave a reputation of −0.5.
