# The Abacus relayer's off-chain pipeline

The relayer indexes messages from an outbox chain, keeps their leaves in two Merkle accumulators,
accepts checkpoints signed by a quorum of validators, proves each message against such a
checkpoint, and delivers it. This project models that pipeline and proves what its parts promise
one another, over unbounded runs.

- `Numbers`, `Hashing`: shifts and powers of two; the hash as a parameter `k`, so every result
  holds for every hash function; the reference root of the dense zero-padded tree.
- `MerkleTree`, `MerkleProof`, `TreeCell`: the right-sparse tree as a value and as heap cells that
  are rewritten in place; proof generation and evaluation. Binding is stated as "the honest proof,
  or here are two inputs with one hash", without assuming that the hash is injective.
- `IncrementalMerkle`, `Prover`, `MerkleTreeBuilder`: the 32-entry accumulator, the prover, and the
  builder that asserts their roots equal.
- `Bytes`, `Types`, `Codec`, `ProofCodec`, `StoreKeys`, `AbacusDB`: wire formats, the key space that
  all entities share, and the flat byte store as a refinement of typed records.
- `OutboxSync`, `IndexingSafety`, `IndexingRecovery`: the message indexer against a provider that
  may drop any messages, with restarts and crashes in the middle of a batch.
- `Pipeline`, `MessageProcessor`: checkpoint fetcher, indexer and processor as one interleaved
  state machine, cut at every point where the processor waits, and the objects with their fields.
- `Progress`: exactly when the processor waits, and that a message it can send gets sent.
- `SerialSubmitter`, `Delivery`: the submitter's queues, and the fate of every message across crashes.
- `Indexer`, `JoinedRuns`: the message indexer one write at a time, and the whole relayer as one
  machine in which every component may move between any two of those writes.
- `GasPayments`: gas payment totals over overlapping windows.
- `Multisig`: quorum assembly and the search for the latest index with a quorum.

The provider, validators' storage, signature recovery, destination chain, clocks and failing
database writes are parameters or nondeterministic answers. `wait_for_leaf` and the waits on the
checkpoint channel are guards: the step is not taken until the awaited thing is there, and the
objects return at the wait and go on from it when they are called again.

Where the code and its documentation differ, the model follows the code:

- The indexer's comment that all indices up to the latest are stored
  (`rust/abacus-base/src/contract_sync/outbox.rs:123-124`) holds if and only if the first batch
  starts at index 0 (`AllFromZero`, `FirstAnswerDecides`); `DroppedZeroIsNeverStored` is a run on
  which it does not. In general the stored indices are one interval (`IndexingIsSafe`). Without
  index 0 the relayer never delivers anything (`SkippedZeroStopsDelivery`).
- Recovery after lost messages fails in one family of states: the next missing message lies before
  both the scan position and the rewind block, and no tip comes within a chunk of it.
  `RecoversExactlyWhen` gives both directions, and `CrashBeforeFirstCursorWedges` reaches such a state.
- The handle's comment gives the key structure `<entity>_<prefix>_<key>`
  (`rust/abacus-core/src/db/abacus_db.rs:28`), but the key does not say where the entity ends:
  entities can overwrite each other (`GasTotalIsALeaf`), exactly under the condition of `ApartIsExact`.
- The submitter's comment promises order by retries and then leaf index
  (`rust/agents/relayer/src/msg/serial_submitter.rs:67-69`); the deque serves untried messages
  first, later batches before earlier ones, and failed ones first in, first out (`TickKeepsLanes`).
  `LateArrivalGoesFirst` breaks the promised order; `AttemptsTheLeast`, `UntriedFailureKeepsOrder`
  and `RetriedFailureKeepsOrder` say exactly when it is kept.
- `Prover::ingest` counts attempts that fail; proofs are still given only for real leaves (`Prove`).
- `RawCommittedMessage::write_to` returns 32 more than it writes (`WriteRaw`).
- `store_latest_message` reduces an index that may be 0; a release build wraps around, which is what
  the model does, and the indexer never gets there (`SortedIsReducible`).
- Storing one message writes its latest index before its body
  (`rust/abacus-core/src/db/abacus_db.rs:109-110`); the state machines treat one stored message as
  atomic.

## Model

| member | source | states |
|---|---|---|
| Hashing.FillZeroHashes | rust/abacus-core/src/accumulator/mod.rs:27-33 | entry i of the table is the zero hash of level i, for every table length |
| Hashing.ZeroRoot | rust/abacus-core/src/accumulator/mod.rs:25-33 | the zero hash of level d is the root of the dense tree over 2^d zero leaves, and of the padded empty list |
| Hashing.PaddedRootSplit | rust/abacus-core/src/accumulator/merkle.rs:137-150 | the dense zero-padded root of a list is the hash of the padded roots of its left and right part |
| MerkleTree.CreateRoot | rust/abacus-core/src/accumulator/merkle.rs:116-153 | the root hash of a created tree is the root of the dense zero-padded tree, for every list that fits |
| MerkleTree.CreateTruncates | rust/abacus-core/src/accumulator/merkle.rs:132-146 | leaves beyond the capacity never reach a created tree (release build) |
| MerkleTree.PushIsSnoc | rust/abacus-core/src/accumulator/merkle.rs:157-208 | snoc law: pushing onto the created tree of fewer than 2^d leaves succeeds and gives, node for node, the created tree of the longer list; on exactly 2^d leaves it is refused as full |
| MerkleTree.PushAllIsCreate | rust/abacus-core/src/accumulator/merkle.rs:125-208 | folding pushes from the empty tree gives the created tree, or is refused as full when the list is too long; no other error occurs |
| MerkleTree.PushAllRoot | rust/agents/relayer/src/merkle_tree_builder.rs:89-97 | folding pushes gives the root of the dense zero-padded tree |
| MerkleTree.PushAppends | rust/abacus-core/src/accumulator/merkle.rs:157-208 | a push that succeeds, into any tree at all, adds its leaf after all leaves of the tree, and keeps every stored hash the hash of its two subtrees |
| MerkleTree.PushTakesOneHalf | rust/abacus-core/src/accumulator/merkle.rs:166-203 | a push changes one half of a node and leaves the other: the right one if and only if that has nodes already, or the left one is a leaf or cannot take the leaf |
| MerkleTree.RefusalMeans | rust/abacus-core/src/accumulator/merkle.rs:157-208 | depth 0, a leaf too high up, a full lowest level, an empty left half beside a filled right one, and a leaf beside a node are refused with their own errors; an empty tree takes every leaf |
| MerkleTree.CreateHasNoEmptyNode | rust/abacus-core/src/accumulator/merkle.rs:181-184 | no part of a created tree has two empty halves: that case of the push is never met |
| MerkleTree.PushCostBound | rust/abacus-core/src/accumulator/merkle.rs:157-208 | what a push onto a created tree spends: one evaluation of the hash for each of the d levels if there is room, none if not, and at most d calls, the failed probe of a full left half included |
| MerkleProof.MerkleRootFromBranch | rust/abacus-core/src/accumulator/merkle.rs:276-291 | the loop over the branch computes the bottom-up evaluation of the leaf at the index |
| MerkleProof.CreateHasDepth | rust/abacus-core/src/accumulator/merkle.rs:210-216 | in a created tree every leaf and every empty subtree is at the depth of its level, so the walk always finds two subtrees |
| MerkleProof.BranchesMean | rust/abacus-core/src/accumulator/merkle.rs:210-216 | only a leaf and the empty tree of depth 0 have no subtrees, and the two subtrees of any other tree hash to its root |
| MerkleProof.WalkIsDense | rust/abacus-core/src/accumulator/merkle.rs:227-254 | the walk through the sparse tree, empty siblings included, ends in the padded leaf at the index and passes the siblings of the dense tree |
| MerkleProof.SiblingsEvaluate | rust/abacus-core/src/accumulator/merkle.rs:276-291 | the siblings of any position evaluate from its leaf to the root of the full row |
| MerkleProof.Completeness | rust/abacus-core/src/accumulator/merkle.rs:227-291 | for every list, depth and index the generated proof verifies against the tree, with the leaf stored there |
| MerkleProof.RowBinding | rust/abacus-core/src/accumulator/merkle.rs:276-291 | a branch that evaluates to the root of a full row is the honest one, or an explicit hash collision is found along it |
| MerkleProof.Binding | rust/abacus-core/src/accumulator/merkle.rs:261-291 | whatever verifies at an index against a created tree is the leaf and path the tree itself gives, or an explicit collision is extracted |
| TreeCells.TreeCell.Create | rust/abacus-core/src/accumulator/merkle.rs:125-153 | the heap tree built from a list represents the created tree, and the meter counts exactly the evaluations the cost function gives |
| TreeCells.TreeCell.RootHash | rust/abacus-core/src/accumulator/merkle.rs:116-122 | the hash kept in a cell is the root hash of the tree it represents |
| TreeCells.TreeCell.PushLeaf | rust/abacus-core/src/accumulator/merkle.rs:157-208 | the in-place push leaves the tree that the functional push gives, reports the same error, and changes nothing when refused; the evaluations and calls that the meter counts are those of the cost function |
| TreeCells.TreeCell.Append | rust/abacus-core/src/accumulator/merkle.rs:157-208 | on the tree of a list: the tree and root of the longer list and d metered evaluations if there is room, a full tree unchanged and none if not |
| TreeCells.TreeCell.LeftAndRight | rust/abacus-core/src/accumulator/merkle.rs:210-216 | the two subtrees of a cell, or nothing for a leaf and for the zero tree of depth 0 |
| TreeCells.TreeCell.GenerateProof | rust/abacus-core/src/accumulator/merkle.rs:227-254 | the loop from the top with a final reversal returns the leaf and the siblings of the walk, lowest first |
| IncrementalMerkles.IncrementalMerkle.constructor | rust/abacus-core/src/accumulator/incremental.rs:16-25 | the empty tree represents the empty list |
| IncrementalMerkles.IncrementalMerkle.Ingest | rust/abacus-core/src/accumulator/incremental.rs:29-42 | the carry loop always reaches its write within 32 levels, and afterwards every set bit i of the count again has in branch[i] the root of exactly its block of leaves |
| IncrementalMerkles.IncrementalMerkle.Root | rust/abacus-core/src/accumulator/incremental.rs:45-59 | the root loop rebuilds the dense zero-padded root over all leaves ingested |
| IncrementalMerkles.IncrementalMerkle.Verify | rust/abacus-core/src/accumulator/incremental.rs:72-80 | accepts exactly the proofs that evaluate to the root over the leaves ingested |
| IncrementalMerkles.CarryStep | rust/abacus-core/src/accumulator/incremental.rs:34-41 | a carry out of bit i joins the block of that bit and the block below into the block one level up |
| IncrementalMerkles.CarryDone | rust/abacus-core/src/accumulator/incremental.rs:34-38 | writing the carried node into the lowest free bit restores the invariant for every set bit |
| IncrementalMerkles.CarryEnds | rust/abacus-core/src/accumulator/incremental.rs:29-42 | for fewer than 2^32 - 1 leaves no carry survives 32 levels |
| IncrementalMerkles.RootStepSet | rust/abacus-core/src/accumulator/incremental.rs:49-56 | at a set bit, the padded root one level up is the hash of the stored block and the root so far |
| IncrementalMerkles.RootStepClear | rust/abacus-core/src/accumulator/incremental.rs:49-56 | at a clear bit, it is the hash of the root so far and the zero hash of the level |
| Provers.Prover.Ingest | rust/agents/relayer/src/prover.rs:62-66 | appends the leaf and returns the padded root, at 32 evaluations of the hash, or reports a full tree at none; the count goes up either way |
| Provers.Prover.FromLeaves | rust/agents/relayer/src/prover.rs:109-120 | built in one go, the prover holds the leaves that fit |
| Provers.Prover.Prove | rust/agents/relayer/src/prover.rs:81-94 | gives a proof exactly for the positions that hold a leaf, even where the count runs ahead: the leaf with its siblings in the dense tree, which evaluates to the padded root; both index errors are characterised |
| Provers.Prover.Verify | rust/agents/relayer/src/prover.rs:98-106 | accepts exactly the proofs that evaluate to the root, and reports both roots otherwise |
| Provers.Prover.Extend | rust/agents/relayer/src/prover.rs:131-138 | ingests a whole list in order as long as the tree does not fill |
| Provers.HonestProof | rust/agents/relayer/src/prover.rs:81-94 | what the walk returns for the position of a leaf proves that leaf against the padded root |
| Provers.VerifiedProofIsHonest | rust/agents/relayer/src/prover.rs:96-106 | a proof that verifies, at any index, is the one the tree gives at the low 32 bits of that index, or it exhibits a collision |
| MerkleTreeBuilders.MerkleTreeBuilder.Roots | rust/agents/relayer/src/merkle_tree_builder.rs:123-125 | the roots of the sparse and the incremental tree are always equal |
| MerkleTreeBuilders.MerkleTreeBuilder.IngestLeafIndex | rust/agents/relayer/src/merkle_tree_builder.rs:89-104 | a stored leaf goes into both trees and the asserted equality of their roots never fails; a leaf not stored is reported and changes nothing |
| MerkleTreeBuilders.MerkleTreeBuilder.UpdateToCheckpoint | rust/agents/relayer/src/merkle_tree_builder.rs:111-136 | index 0 is skipped whatever the root; any other index adds exactly the stored leaves up to the first missing one, where it waits, and with none missing succeeds if and only if the padded root is the signed one |
| MerkleTreeBuilders.WaitingResumes | rust/agents/relayer/src/merkle_tree_builder.rs:118-122 | an update that waited and went on later has added what one go on the later store would have added |
| MerkleTreeBuilders.MerkleTreeBuilder.GetProof | rust/agents/relayer/src/merkle_tree_builder.rs:85-87 | a proof is returned exactly for the positions below the leaf count |
| Bytes.BERoundTrip | rust/abacus-core/src/traits/encode.rs:103-145 | decoding the big-endian bytes of a number gives it back, for every width |
| Bytes.BEIsOnto | rust/abacus-core/src/traits/encode.rs:103-145 | every byte string is the encoding of what it decodes to |
| Bytes.LERoundTrip | rust/abacus-core/src/traits/encode.rs:79-101 | the same for little-endian words |
| Bytes.LEIsOnto | rust/abacus-core/src/traits/encode.rs:79-101 | every word is the little-endian encoding of its number |
| Bytes.BEByte | rust/abacus-core/src/traits/encode.rs:103-145 | byte i of the big-endian form of n is n divided by 256 as often as bytes follow, modulo 256 |
| Bytes.LEByte | rust/abacus-core/src/traits/encode.rs:79-101 | byte i of the little-endian form of n is n / 256^i modulo 256 |
| Codec.MessageRoundTrip | rust/abacus-core/src/types/messages.rs:34-76 | reading what a message wrote gives the message back |
| Codec.MessageIsOnto | rust/abacus-core/src/types/messages.rs:48-76 | a string parses if and only if it has at least 72 bytes, and writing the result gives the string back |
| Codec.LeafAgrees | rust/abacus-core/src/traits/message.rs:22-32 | for every message of at least 72 bytes the leaf of the parsed form is the leaf of the raw form |
| Codec.LeafBinds | rust/abacus-core/src/traits/message.rs:22-32 | two committed messages share a leaf only if they are equal or their hashed strings are a digest collision |
| Codec.RawRoundTrip | rust/abacus-core/src/traits/message.rs:35-63 | a stored raw message reads back unchanged |
| Codec.CheckpointRoundTrip | rust/abacus-core/src/types/checkpoint.rs:32-65 | a checkpoint reads back unchanged and leaves the rest of the input |
| Codec.AmountInjective | rust/abacus-core/src/traits/encode.rs:79-101 | different 256-bit words stand for different numbers |
| Codec.MetaBytesInjective | rust/abacus-core/src/types/mod.rs:33-56 | different payment identities have different keys |
| Codec.MessageLayout | rust/abacus-core/src/types/messages.rs:34-46 | each field of a message lies at its own offset: origin, sender, destination, recipient, body; numbers big-endian |
| Codec.PreimageLayout | rust/abacus-core/src/traits/message.rs:22-32 | what is hashed to a leaf is the message followed by its index as a 32-byte big-endian number |
| Codec.RawLayout | rust/abacus-core/src/traits/message.rs:35-44 | a stored message is its index, big-endian, and its bytes |
| Codec.CheckpointLayout | rust/abacus-core/src/types/checkpoint.rs:32-43 | a checkpoint is its domain, its root and its index, numbers big-endian |
| Codec.MetaLayout | rust/abacus-core/src/types/mod.rs:33-43 | an identity is the transaction hash and the little-endian log index |
| Codec.Writer.WriteMessage | rust/abacus-core/src/types/messages.rs:34-46 | writes exactly the message bytes and returns their number |
| Codec.Writer.WriteRaw | rust/abacus-core/src/traits/message.rs:35-44 | writes exactly the raw bytes, but returns 32 more than their number |
| Codec.Writer.WriteCheckpoint | rust/abacus-core/src/types/checkpoint.rs:32-43 | writes exactly the 40 checkpoint bytes and returns their number |
| Codec.Writer.WriteMeta | rust/abacus-core/src/types/mod.rs:33-43 | writes exactly the 64 identity bytes and returns their number |
| Codec.Reader.ReadMessage | rust/abacus-core/src/types/messages.rs:48-76 | reading field by field is parsing the whole string |
| Codec.Reader.ReadRaw | rust/abacus-core/src/traits/message.rs:46-63 | reading a raw message is parsing the whole string |
| ProofCodec.ProofRoundTrip | rust/abacus-core/src/accumulator/merkle.rs:61-95 | a proof with a 64-bit index reads back unchanged and leaves the rest of the input |
| ProofCodec.ProofLayout | rust/abacus-core/src/accumulator/merkle.rs:61-76 | a proof is its leaf, its index as a 64-bit big-endian number, and the siblings from the lowest on |
| StoreKeys.NoAliasing | rust/abacus-core/src/db/typed_db.rs:26-49 | no two records of one entity share a key, whatever their families and keys |
| StoreKeys.KeyInjective | rust/abacus-core/src/db/mod.rs:127-143 | inside a family, different keys have different bytes |
| StoreKeys.GasTotalIsALeaf | rust/abacus-core/src/db/typed_db.rs:26-32 | two entities can share keys: for every index, the gas total of an entity is stored where the entity named "..._gas_payment_for" stores the leaf |
| StoreKeys.ApartIsExact | rust/abacus-core/src/db/typed_db.rs:26-32 | two entities share a key if and only if one name continues the other by nothing, by "gas_payment_for_", or by a message or payment-mark prefix and one of the listed numbers of bytes |
| AbacusDBs.PutSparesOthers | rust/abacus-core/src/db/mod.rs:80-102 | a write of one entity leaves the records of every entity apart from it as they were |
| AbacusDBs.OverlapLosesRecords | rust/abacus-core/src/db/mod.rs:80-102 | entities that are not apart have a record each such that one write of the one takes the record of the other |
| AbacusDBs.PutRefines | rust/abacus-core/src/db/mod.rs:80-102 | one write to the flat store is one write to one typed record, and leaves every other record alone |
| AbacusDBs.AbacusDB.Put | rust/abacus-core/src/db/mod.rs:69-90 | a write keeps the flat store a representation of the typed records, and of the records of every entity apart from it |
| AbacusDBs.AbacusDB.UpdateLatestLeafIndex | rust/abacus-core/src/db/abacus_db.rs:117-124 | the latest index only rises |
| AbacusDBs.AbacusDB.UpdateLatestForDestination | rust/abacus-core/src/db/abacus_db.rs:134-145 | the latest index of one destination only rises, and no other changes |
| AbacusDBs.AbacusDB.StoreLeaf | rust/abacus-core/src/db/abacus_db.rs:156-165 | records the leaf and raises both latest indices |
| AbacusDBs.AbacusDB.StoreRawCommittedMessage | rust/abacus-core/src/db/abacus_db.rs:98-112 | stores leaf, latest indices and body under the leaf, or refuses a message that does not parse and changes nothing |
| AbacusDBs.AbacusDB.StoreLatestMessage | rust/abacus-core/src/db/abacus_db.rs:78-91 | stores the message and tells whether its index is one above the latest, modulo 2^32 |
| AbacusDBs.AbacusDB.StoreMessages | rust/abacus-core/src/db/abacus_db.rs:59-75 | stores the list in order up to the first message that does not parse; returns the last index |
| AbacusDBs.StoringMeans | rust/abacus-core/src/db/abacus_db.rs:98-165 | storing a message leaves its leaf under its index, its body under the leaf, and raises the latest index overall and for its own destination; nothing else changes |
| AbacusDBs.StoredWhenReadable | rust/abacus-core/src/db/abacus_db.rs:59-75 | a list is stored completely if and only if every message in it has at least 72 bytes |
| AbacusDBs.StopsAtTheFirstUnreadable | rust/abacus-core/src/db/abacus_db.rs:59-75 | the first message that is too short ends it, and exactly what comes before is stored |
| AbacusDBs.MarksAreOnes | rust/abacus-core/src/db/abacus_db.rs:223-289 | a mark is the 32-bit number 1, a booked payment the byte 1, the latest index four big-endian bytes |
| AbacusDBs.AbacusDB.MessageByLeafIndex | rust/abacus-core/src/db/abacus_db.rs:178-187 | reads back the message stored under the leaf of the index, across both byte-level lookups |
| AbacusDBs.AbacusDB.MarkLeafAsProcessed | rust/abacus-core/src/db/abacus_db.rs:223-226 | adds one index to the processed marks and changes nothing else |
| AbacusDBs.AbacusDB.RetrieveLeafProcessingStatus | rust/abacus-core/src/db/abacus_db.rs:229-235 | answers exactly for the marked indices |
| AbacusDBs.AbacusDB.StoreRangeStart | rust/abacus-base/src/contract_sync/schema.rs:19-21 | sets the message cursor and changes nothing else |
| AbacusDBs.AbacusDB.StoreGasBlock | rust/abacus-base/src/contract_sync/schema.rs:35-37 | sets the gas cursor and changes nothing else |
| AbacusDBs.AbacusDB.ProcessGasPayment | rust/abacus-core/src/db/abacus_db.rs:239-289 | marks a new payment and adds it to its total; a payment marked before changes nothing; an overflow leaves the mark without the sum |
| AbacusDBs.Sum | rust/abacus-core/src/db/abacus_db.rs:282-283 | a sum is given exactly when it fits in 256 bits, and is exact |
| OutboxSyncs.AboveIsSorted | rust/abacus-base/src/contract_sync/outbox.rs:129-131 | filtering keeps the order, and every index kept is at least 1, so reducing it by one is safe |
| OutboxSyncs.WindowCovers | rust/abacus-base/src/contract_sync/outbox.rs:108-112 | each window contains what is left to scan and is at most a chunk long |
| OutboxSyncs.WindowIsFull | rust/abacus-base/src/contract_sync/outbox.rs:108-112 | each window is as long as it can be: up to the tip or a chunk ahead, and back a full chunk or to block 0 |
| OutboxSyncs.RestartsAtTheCursor | rust/abacus-base/src/contract_sync/outbox.rs:84-88 | after a stored batch a restart scans again from the start of that window; an empty database starts at the configured block |
| OutboxSyncs.ValidityMeans | rust/abacus-base/src/contract_sync/last_message.rs:31-55 | each of the four answers, both ways: nothing there; no successor of the latest index; a successor but indices that do not follow each other; a successor and consecutive indices |
| OutboxSyncs.StepOutcome | rust/abacus-base/src/contract_sync/outbox.rs:92-203 | when an iteration waits, ends, moves on, goes back to the rewind block, repeats the same window, or stores a batch, in terms of the indices in the answer |
| OutboxSyncs.MovesOnWhenStored | rust/abacus-base/src/contract_sync/outbox.rs:114-201 | the scan moves on only past a window that brought nothing new, or of which every new message was stored, and then the cursor too |
| OutboxSyncs.OutboxSync.Iterate | rust/abacus-base/src/contract_sync/outbox.rs:92-203 | one loop iteration on the byte store is the specified step on cursor, rewind block and records |
| OutboxSyncs.OutboxSync.Store | rust/abacus-base/src/contract_sync/outbox.rs:151-175 | a valid batch is stored, then the cursor, and the scan moves past the window |
| OutboxSyncs.SortedIsReducible | rust/abacus-core/src/db/abacus_db.rs:81 | a sorted batch above the latest index never makes the reduced index wrap around |
| IndexingSafety.ValidIsConsecutive | rust/abacus-base/src/contract_sync/last_message.rs:31-55 | a list accepted as a valid continuation is a gap-free run of true messages right after the latest one |
| IndexingSafety.StoreOne | rust/abacus-core/src/db/abacus_db.rs:78-112 | storing the next true message extends the interval of stored indices by one and replaces nothing |
| IndexingSafety.StoreAll | rust/abacus-core/src/db/abacus_db.rs:59-75 | a batch of the next true messages is stored completely |
| IndexingSafety.BatchSafe | rust/abacus-base/src/contract_sync/outbox.rs:114-153 | whatever part of a fetched batch gets stored, the invariant holds and nothing is replaced |
| IndexingSafety.StepSafe | rust/abacus-base/src/contract_sync/outbox.rs:92-203 | every iteration, restart or crash keeps the stored indices one interval of true leaves |
| IndexingSafety.IndexingIsSafe | rust/abacus-base/src/contract_sync/outbox.rs:92-203 | over every run with a lossy provider and crashes: the stored indices are one interval ending at the latest, every leaf is the true one, and nothing stored is ever replaced or lost |
| IndexingSafety.AllFromZero | rust/abacus-base/src/contract_sync/outbox.rs:123-125 | on every run, from the time something is stored: all indices up to the latest are stored if and only if index 0 was stored by then, and that never changes |
| IndexingSafety.FirstAnswerDecides | rust/abacus-base/src/contract_sync/outbox.rs:114-153 | all indices up to the latest are stored if and only if the answer of which something was stored first begins with message 0 |
| IndexingSafety.DroppedZeroIsNeverStored | rust/abacus-base/src/contract_sync/outbox.rs:114-153 | a run on which they are not: the provider drops message 0 of two, and index 1 alone is stored |
| IndexingSafety.StoredMessageIsTrue | rust/abacus-core/src/db/abacus_db.rs:178-187 | a stored index reads back as its true message, or two messages are a digest collision |
| IndexingRecovery.NothingIsPassedOver | rust/abacus-base/src/contract_sync/outbox.rs:114-201 | on every run with crashes: once the scan has moved past a window, every message of its answer that was new then is stored, for good |
| IndexingRecovery.StepKeepsAnchor | rust/abacus-base/src/contract_sync/outbox.rs:169-189 | every iteration, restart or crash keeps the cursor at or before the block of the latest message, and the next missing message not before the rewind block |
| IndexingRecovery.RunIsAnchored | rust/abacus-base/src/contract_sync/outbox.rs:84-203 | the same over whole runs |
| IndexingRecovery.FreshHasNoGaps | rust/abacus-base/src/contract_sync/outbox.rs:80-82 | what a lossless window brings above the latest index has no gaps |
| IndexingRecovery.LosslessStepAdvances | rust/abacus-base/src/contract_sync/outbox.rs:92-203 | a lossless iteration raises the latest index or strictly lowers an explicit distance |
| IndexingRecovery.Recovery | rust/abacus-base/src/contract_sync/outbox.rs:68-82 | with a lossless provider and a message at or after the scan position, strictly below the tips, the latest index rises within that distance |
| IndexingRecovery.RunRecovers | rust/abacus-base/src/contract_sync/outbox.rs:84-203 | recovery from every state of every lossy run in which no crash came before the first cursor |
| IndexingRecovery.RecoversExactlyWhen | rust/abacus-base/src/contract_sync/outbox.rs:68-82 | given enough tips above a waiting message, the latest index rises if and only if the next missing message is in reach (not before both the scan and the rewind block) or some tip is within a chunk of its block |
| IndexingRecovery.RunRecoversExactlyWhen | rust/abacus-base/src/contract_sync/outbox.rs:84-203 | the same for every state of every lossy run with crashes; with a cursor stored, or nothing stored, the message is always in reach |
| IndexingRecovery.Wedged | rust/abacus-base/src/contract_sync/outbox.rs:178-190 | out of reach and with every tip more than a chunk above it, no number of lossless iterations changes the records |
| IndexingRecovery.CrashBeforeFirstCursorWedges | rust/abacus-base/src/contract_sync/outbox.rs:153-171 | a crash between storing the first message and storing the first cursor leads there: a message waits in block 20, and no lossless run with the tip above it ever stores anything |
| MessageProcessors.CheckpointFetcher.Poll | rust/agents/relayer/src/checkpoint_fetcher.rs:43-104 | sends a checkpoint if and only if the latest index is new, a quorum for it is fetched and the channel is open, and then the fetched one, raising the last index sent to its index; ends if and only if the fetch of a new index fails or its quorum finds the channel closed; undisturbed and open, the one root that alone has a quorum at a new latest index is sent |
| MessageProcessors.MessageProcessor.Tick | rust/agents/relayer/src/msg/processor.rs:94-226 | from wherever it waits, and on whatever the store and the cell hold then, the object makes a sequence of moves of the pipeline's processor, up to the end of a tick or the next wait; the answer says which, and no assertion fails |
| MessageProcessors.MessageProcessor.Update | rust/agents/relayer/src/msg/processor.rs:191-196 | the update of the tree is a sequence of moves, and stops only at the first leaf that is not stored |
| MessageProcessors.MessageProcessor.Send | rust/agents/relayer/src/msg/processor.rs:197-218 | the asserted size holds, a proof is found, and the item with that proof is sent, or the closed channel ends the processor |
| MessageProcessors.UpdateEnds | rust/agents/relayer/src/merkle_tree_builder.rs:117-133 | adding the leaves one move at a time ends where adding them in one go does |
| Provers.GivenProofProves | rust/agents/relayer/src/prover.rs:81-94 | the proof handed out for a position proves that leaf against the padded root |
| Pipelines.CheckpointKeepsInv | rust/agents/relayer/src/msg/processor.rs:176-197 | a checkpoint below the leaf count is the very checkpoint the tree was verified against |
| Pipelines.UpdateKeepsInv | rust/agents/relayer/src/merkle_tree_builder.rs:111-136 | updating leaf by leaf, with stores in between, keeps the tree equal to the stored leaves |
| Pipelines.SendDelivers | rust/agents/relayer/src/msg/processor.rs:198-218 | the item sent carries the proof of its own leaf against the root of its own checkpoint |
| Pipelines.CellIsOrderly | rust/agents/relayer/src/msg/processor.rs:177-187 | what the channel guarantees of the checkpoint taken: not index 0, not below the tree, and verified when equal |
| Pipelines.StepKeepsInv | rust/agents/relayer/src/msg/processor.rs:94-226 | every step of fetcher, indexers, submitter and processor keeps the invariant |
| Pipelines.EveryRunDelivers | rust/agents/relayer/src/msg/processor.rs:174-218 | for every indexer that does not rewrite an index, in every interleaving the two assertions never fire, a proof is always found, and every item sent has the proof index, leaf and root it promises |
| Pipelines.IndexZeroTripsTheAssertion | rust/agents/relayer/src/merkle_tree_builder.rs:115-117 | were index 0 ever sent, the processor's assertion on the tree size would fail |
| Pipelines.HonestRunsKeepGoing | rust/agents/relayer/src/merkle_tree_builder.rs:127-133 | with true messages and checkpoints over the true leaves only a stopped submitter stops the processor |
| Pipelines.VerifiedTreeIsTrue | rust/agents/relayer/src/merkle_tree_builder.rs:124-133 | a tree verified against an honest root holds the true leaves, or an explicit collision is extracted |
| Progress.ScanMeans | rust/agents/relayer/src/msg/processor.rs:94-146 | the scan passes over exactly the indices that are processed or whose message has another destination, is not whitelisted or is blacklisted; it takes on the message of any other stored leaf, and waits where no leaf is stored |
| Progress.MovesPast | rust/agents/relayer/src/msg/processor.rs:94-226 | in any state at all, one move takes the scan position past an index only if it is processed, its message is not for this inbox, or it was just sent; and by one |
| Progress.WaitsExactlyWhen | rust/agents/relayer/src/msg/processor.rs:75-226 | the processor waits if and only if it has no first checkpoint, the next leaf is not stored, no checkpoint covers its message, or a leaf it updates with is not stored |
| Progress.MessageIsSent | rust/agents/relayer/src/msg/processor.rs:94-226 | a stored message for this inbox that is not processed, covered by a checkpoint over the stored leaves, is sent by the processor's own moves, with a proof of its leaf against that checkpoint's leaves |
| SerialSubmitters.SerialSubmitter.Tick | rust/agents/relayer/src/msg/serial_submitter.rs:163-243 | a tick on the object is the specified tick on its queues, and marks in the database exactly what the report says |
| SerialSubmitters.MarksWhatWasDelivered | rust/agents/relayer/src/msg/serial_submitter.rs:201-280 | a tick marks if and only if it took a message that was found processed or was delivered, and the write worked; it marks that message, and never under a failed status call |
| SerialSubmitters.FailsExactly | rust/agents/relayer/src/msg/serial_submitter.rs:163-240 | a tick takes a message if and only if the channel is open and something is queued; it fails if and only if the channel is closed, the status call fails, or the mark of a processed message is not written |
| SerialSubmitters.TickConserves | rust/agents/relayer/src/msg/serial_submitter.rs:163-240 | the queues lose only the message taken, which returns with one more retry if and only if it is pending and not both delivered and marked |
| SerialSubmitters.SerialSubmitter.Promote | rust/agents/relayer/src/msg/serial_submitter.rs:184-192 | the wait queue moves, in order, in front of the run queue |
| SerialSubmitters.SerialSubmitter.RecordSuccess | rust/agents/relayer/src/msg/serial_submitter.rs:268-280 | success means the index is marked; failure to write marks nothing |
| SerialSubmitters.TickKeepsLanes | rust/agents/relayer/src/msg/serial_submitter.rs:184-240 | the run queue is untried messages followed by failed ones; untried ones are always attempted first, failed ones first in first out |
| SerialSubmitters.LateArrivalGoesFirst | rust/agents/relayer/src/msg/serial_submitter.rs:67-69 | an input on which the order by retries and leaf index is not kept: message 7 arrives and goes before message 5 |
| SerialSubmitters.AttemptsTheLeast | rust/agents/relayer/src/msg/serial_submitter.rs:184-201 | with messages in the order the processor sends them, a tick with an untried message attempts the first one by retries and leaf index if and only if nothing new arrives on top of untried ones |
| SerialSubmitters.UntriedFailureKeepsOrder | rust/agents/relayer/src/msg/serial_submitter.rs:224-240 | after an untried message fails, the failed ones are in that order if and only if there were none, or the last had failed once and has no higher index |
| SerialSubmitters.RetriedFailureKeepsOrder | rust/agents/relayer/src/msg/serial_submitter.rs:224-240 | after a message fails again, they are if and only if it was the only one, or the last comes no later than it |
| SerialSubmitters.WaitsExactly | rust/agents/relayer/src/msg/serial_submitter.rs:163-243 | over successful ticks the message at position p is attempted after exactly p other attempts plus one for each message that has arrived by then, and every tick before attempts a message with another index |
| Deliveries.SubmitKeepsQueues | rust/agents/relayer/src/msg/serial_submitter.rs:163-243 | an attempt keeps every queued index single, unmarked and not lost |
| Deliveries.SubmitKeepsSent | rust/agents/relayer/src/msg/serial_submitter.rs:201-240 | after an attempt everything sent is still queued, marked, or lost by a failed tick |
| Deliveries.EveryMessageIsAccountedFor | rust/agents/relayer/src/msg/processor.rs:94-226 | in every reachable state each scanned index is processed, sent exactly once in this run, or rejected; everything sent is queued once, processed, or lost unmarked by the tick that stopped the submitter |
| Deliveries.CommitIsFinal | rust/agents/relayer/src/msg/serial_submitter.rs:263-280 | once an index is marked, no later tick attempts it, whatever crashes come between |
| Deliveries.EveryMarkWasEarned | rust/agents/relayer/src/msg/serial_submitter.rs:201-280 | on every run, an index that is marked was taken by a tick in which it was found processed or was delivered, and the mark was written |
| Deliveries.EveryRunKeepsLanes | rust/agents/relayer/src/msg/serial_submitter.rs:163-240 | on every run, crashes included, the run queue is untried messages followed by failed ones |
| JoinedRuns.ProcessorMoves | rust/agents/relayer/src/msg/processor.rs:94-226 | every move of the pipeline's processor is a move of the scan in the accounting, and rejections are real rejections |
| JoinedRuns.SubmitterMarks | rust/agents/relayer/src/msg/serial_submitter.rs:268-280 | whatever the submitter marks was sent by the processor |
| Indexers.NextIsNew | rust/abacus-base/src/contract_sync/outbox.rs:114-153 | between any two writes of a batch, the next message is a true one, parses, and has an index not stored before |
| Indexers.MessageOnTrack | rust/abacus-core/src/db/abacus_db.rs:78-112 | storing it keeps the stored indices one interval and the rest of the batch a continuation |
| Indexers.IterationInSteps | rust/abacus-base/src/contract_sync/outbox.rs:92-203 | from a good state a batch is stored as a sequence of writes of new messages, and these writes with the cursor are the iteration |
| JoinedRuns.GoodIsCoherent | rust/abacus-core/src/db/abacus_db.rs:98-112 | what the indexer's invariant says of the store is what the processor relies on |
| JoinedRuns.StoreNextKeepsInv | rust/agents/relayer/src/msg/processor.rs:75-226 | each message the indexer stores is a step the pipeline allows: the index is new |
| JoinedRuns.WholeRelayerIsSafe | rust/agents/relayer/src/msg/processor.rs:75-226 | every run of fetcher, both indexers write by write, processor and submitter on one store, crashes included: no assertion fails, every item sent proves its own leaf, every message is accounted for, and only a wrong root or a stopped submitter stops the processor |
| JoinedRuns.HonestRelayerKeepsGoing | rust/agents/relayer/src/merkle_tree_builder.rs:127-133 | in such a run with checkpoints over the chain's true leaves, only a stopped submitter does |
| JoinedRuns.QuorumsKeepTheRelayerGoing | rust/agents/relayer/src/checkpoint_fetcher.rs:43-67 | the same when every checkpoint comes from a quorum among validators of which fewer mislead about its index than a quorum needs |
| JoinedRuns.RelayerCommitIsFinal | rust/agents/relayer/src/msg/serial_submitter.rs:263-280 | in such a run, an index marked in the store is never taken up by the submitter again, whatever crashes come between |
| JoinedRuns.RelayerMarksAreEarned | rust/agents/relayer/src/msg/serial_submitter.rs:201-280 | in every run of the whole relayer, an index marked in the store was taken by a tick that found it processed or delivered it, and wrote the mark |
| JoinedRuns.NothingWithoutZero | rust/agents/relayer/src/msg/processor.rs:75-140 | in every reachable state without index 0 in the store, nothing was ever marked, sent or attempted, and the processor is at position 0 |
| JoinedRuns.SkippedZeroStopsDelivery | rust/agents/relayer/src/msg/processor.rs:75-140 | once something is stored but not index 0, that stays so, and no message is ever sent, attempted or marked in any run that goes on from there |
| JoinedRuns.ZeroCanBeSkipped | rust/abacus-base/src/contract_sync/outbox.rs:114-153 | such a state is reached when the provider drops message 0 of two |
| JoinedRuns.StoringGoesOn | rust/abacus-core/src/db/abacus_db.rs:59-75 | the next message of a batch can always be stored |
| JoinedRuns.MovesAreJoint | rust/agents/relayer/src/msg/processor.rs:94-226 | no move of the processor is blocked, except that sending needs a submitter |
| GasPayments.SumWith | rust/abacus-core/src/db/abacus_db.rs:282-283 | the sum over a set of payments grows by the amount of each new member, whatever order it is taken in |
| GasPayments.ProcessKeepsBooks | rust/abacus-core/src/db/abacus_db.rs:239-256 | processing counts a payment if it is new and changes nothing otherwise |
| GasPayments.BatchIsBooked | rust/abacus-base/src/contract_sync/interchain_gas.rs:75-77 | a processed list counts exactly the payments in it that were not seen before; one that overflows leaves at most one payment marked but not counted |
| GasPayments.GasSync.Iterate | rust/abacus-base/src/contract_sync/interchain_gas.rs:44-83 | one loop iteration on the byte store is the specified step |
| GasPayments.GasSync.Count | rust/abacus-base/src/contract_sync/interchain_gas.rs:75-77 | the loop over the fetched payments is processing the list |
| GasPayments.StepOutcome | rust/abacus-base/src/contract_sync/interchain_gas.rs:44-83 | an iteration waits, ends on a failed call or an overflow, or processes the answer and stores the end of its window as the cursor |
| GasPayments.ResumesAfterTheWindow | rust/abacus-base/src/contract_sync/interchain_gas.rs:37-83 | after a completed window a restart resumes at the block after its end, exactly where the loop is; an empty database starts at the configured block |
| GasPayments.TotalsAreConserved | rust/abacus-core/src/db/abacus_db.rs:239-297 | over every run the total per leaf is the sum over the distinct payments counted: all fetched ones if nothing crashed, never more otherwise, and short of them by at most one payment for each crash or overflow |
| GasPayments.NoBlockIsSkipped | rust/abacus-base/src/contract_sync/interchain_gas.rs:37-83 | over every run, restarts and crashes included, every block from the start to the position and to the stored cursor lies in a completed window |
| GasPayments.NoPaymentIsMissed | rust/abacus-base/src/contract_sync/interchain_gas.rs:37-83 | with a provider that answers each window completely, every payment in a block from the start to the position is marked after any restarts and crashes; if nothing crashed or overflowed, every total is at least the sum of those payments |
| Multisigs.EndorsementsAreSupporters | rust/abacus-base/src/types/multisig.rs:40-74 | the endorsements gathered for a root are one for each validator that signed it |
| Multisigs.FindingNeedsQuorum | rust/abacus-base/src/types/multisig.rs:137-151 | an index is found by a fetch only if some root has a quorum there, and a fetch finds nothing only if none has or something is disturbed |
| Multisigs.ReportedCounts | rust/abacus-base/src/types/multisig.rs:98-106 | the gathered list has each index once for every validator that reports it |
| Multisigs.SortAscending | rust/abacus-core/src/types/checkpoint.rs:239-240 | endorsements of distinct signers are sorted into strictly ascending order |
| Multisigs.EndorsementsSign | rust/abacus-core/src/types/checkpoint.rs:220-252 | the combined checkpoint carries valid signatures by distinct validators, ascending by signer, all over one checkpoint |
| Multisigs.TryFromIsSound | rust/abacus-core/src/types/checkpoint.rs:220-252 | enough endorsements combine into a sound checkpoint, unless two of them differ outside root and index |
| Multisigs.MultisigCheckpointSyncer.FetchCheckpoint | rust/abacus-base/src/types/multisig.rs:33-87 | a returned checkpoint has the requested index and at least max(1, threshold) sound signatures; nothing returned means no root has that many; a failure means a bad signature or differing checkpoints |
| Multisigs.MajorityRoot | rust/abacus-base/src/types/multisig.rs:75-82 | two quorums that together outnumber the validators are for one root |
| Multisigs.OrderDoesNotMatter | rust/abacus-base/src/types/multisig.rs:40-86 | with recoverable signatures and one domain, whether a quorum is found does not depend on the visiting order, and with a majority threshold neither does its root |
| Multisigs.QuorumIsTrue | rust/abacus-base/src/types/multisig.rs:33-87 | with fewer misleading validators at an index than a quorum needs, every quorum at that index is for the true root |
| Multisigs.OnlyQuorumIsFetched | rust/abacus-base/src/types/multisig.rs:75-82 | the bound is tight: undisturbed, a root that alone has a quorum is the one fetched, whichever it is |
| Multisigs.MultisigCheckpointSyncer.ScanForCommon | rust/abacus-base/src/types/multisig.rs:116-132 | the run-length scan finds the greatest index that at least threshold validators report, if there is one; for threshold 0, the highest reported index |
| Multisigs.MultisigCheckpointSyncer.SearchBelow | rust/abacus-base/src/types/multisig.rs:137-151 | the second search finds the greatest distinct index below the highest for which a fetch finds a quorum |
| Multisigs.MultisigCheckpointSyncer.LatestIndex | rust/abacus-base/src/types/multisig.rs:98-152 | over the validators' reports, for every threshold including 0: the greatest index that at least threshold validators report; if there is none, the greatest reported index below the highest at which a fetch finds a quorum |

## Left out

- Pipelines.EveryRunDelivers: takes from the indexer that it stores new indices only, which JoinedRuns derives; checkpoint indices are below 2^32 - 1 and the scan position stays below it, because both trees and the processor's 32-bit additions stop there.
- MerkleTreeBuilders.MerkleTreeBuilder.UpdateToCheckpoint: requires an index below 2^32 - 1, where the incremental tree is full and the source stops.
- OutboxSyncs.Step: block numbers are not wrapped at 2^32; `from + chunk_size` and `to + 1` are exact, because a chain that high does not occur. The same holds for GasPayments.Step.
- MessageProcessors.MessageProcessor.Tick: reads the store and the checkpoint cell once for each stretch between two waits; the writes that may come in between are steps of Pipelines.
- TreeCells.TreeCell.LeftAndRight: a fresh zero cell stands for the shared static table of zero nodes, which is only read.
- Multisigs.Sort: the library's stable sort is an insertion sort on values, and not done in place.
- SerialSubmitters.TickQueues: the retry counter does not wrap at 2^32, and metrics are not modelled.
- The value of keccak256, ECDSA recovery and message-hash prefixing: parameters, with no axioms.
- The codec of a single signature and of signed checkpoints: the signature format belongs to a library.
- `store_proof` and `leaf_iterator`: only a test helper stores a proof (`rust/abacus-test/src/test_utils.rs:86`), and nothing writes the prefix that is iterated; proof records take part in the key results.
- MatchingList: whitelist and blacklist are arbitrary predicates.
- RPC, S3 and file storage, RocksDB internals, the async runtime, metrics, tracing and settings.
- The Gelato submitter (its tick is unimplemented), the chain-specific crates, the web app and the subgraph.
