# Verification of the messaging system's core

Dafny models of the parts of an end-to-end encrypted messaging system whose correctness is hard to see: a C++ Qt
client, a FastAPI and PostgreSQL relay, and Ethereum anchoring of message digests. Each module follows one component;
loops and objects that the source updates in place are methods and classes here, proved against functions, and the
properties are proved about those functions.

- `KeccakBits`, `KeccakWords`, `KeccakSponge`: the client's own Keccak-256. The permutation over words is shown to be
  Keccak-f[1600] of FIPS 202 on bits and to be invertible, with its rotation and round-constant tables derived from the
  standard's generators, and the byte loops are shown to be the sponge of section 4 of FIPS 202.
- `Merkle`, `Conversation`, `FidelityContract`: Merkle trees, proofs and verification over message leaves, the
  conversation tree, and the write-once contract, whose numeric ordering of siblings agrees with the textual one.
- `AnchorProtocol`, `AnchorRaces`, `AnchorRecovery`: workers that lock pending rows, submit them to the contract and
  commit, as a state machine over all interleavings with crashes, one worker as code, the exact settings in which racing
  retries and twin transactions do no harm, and the records that can still be confirmed.
- `RateLimiter`: the fixed-window limiter over real-valued time.
- `CanonicalRecord`, `CanonicalReading`, `JsonReader`, `MessageRelay`: the canonical bytes behind a digest, what a JSON
  reader finds in them, and the relay's message table.
- `LocalStore`, `MessageSync`, `ConversationSummaries`: the client's message cache with sticky tombstones, its refresh
  from the relay, and the summaries derived from it; `PlaceMarkers`, `ConversationKeys`: the keys of the summaries, as
  QString::arg builds them.
- `PrekeyHandout`, `RelayPrekeys`, `RefreshRotation`: one-time prekeys, the prekeys messages name, and refresh tokens,
  each a locked read-check-write transaction, over all interleavings.
- `KeyAgreement`, `KeyAgreementLaws`: first-message encryption and decryption; primitives and keys that meet every
  hypothesis of its theorems at once, and others that record what the message key is derived from.
- `Wrappers`, `Decimal`, `Hexadecimal`, `Powers`: optional values and results; integers in decimal and hexadecimal;
  powers of two.

Hashes, ciphers and Diffie-Hellman outside the client's Keccak are parameters. No theorem says that a hash is injective
or a cipher unforgeable: where the conclusion would need that, the theorem returns either the conclusion or the explicit
pair of preimages (or the explicit opened box) that breaks it, computed by a function.

A protocol is a set of steps; a run is any sequence of steps, one that is not possible when its turn comes being skipped.
A step is one database statement, one transaction that holds its locks from its first read on, one message to the chain,
or a crash. Requests to the message table lock nothing, so there a step is what a request reads or what it writes. A
property of all runs is then a property of all interleavings.

Where the code and what its surroundings suggest differ, the model follows the code:

- When the input length is 135 modulo 136 the padding code appends a whole extra block, where the standard would write
  the single byte 0x81. `KeccakSponge.PaddingIsStandard` states exactly when the two agree.
- `verifyProof` does not compare the proof's length with the tree's depth; soundness is therefore stated for proofs of
  every length.
- The conversation comparator is not transitive when some but not all messages carry a timestamp (and more than one
  does); `Conversation.TransitiveExactlyOnSafePatterns` states exactly when it is.
- The contract recognises a record by its non-zero timestamp; `FidelityContract.StoreIsPermanent` states exactly when
  that makes a store permanent.
- A retry looks for an active anchor and inserts a new one without a lock. `AnchorRaces.OneActiveExactly` states exactly
  when a message keeps to one, `InsertKeepsOneActive` which check would be enough.
- Two rows of one record can share a transaction and both be confirmed when the node accepts one it already has, and
  failures are marked so that retries race, or two messages share record id and digest:
  `AnchorRaces.ConfirmedOnceExactly`, with runs in `RaceThenTwins` and `MessagesThenTwins`.
- The key of a conversation summary is built by two calls of arg, and the second also replaces markers that the user id
  brought in. `ConversationKeys.KeysMeetExactly` states when keys are equal, `ConversationSummaries.SummaryExact` and
  `PeerCountsExactly` what that does to the summaries; user ids without percent signs, such as UUIDs, are not affected.
- A listing that changes while its pages are fetched can make the client skip, and then hide, a message that is still
  listed: `MessageSync.ShiftedFetch` and `SkippedIsHidden`.
- A message may name a one-time prekey that another message named before; the relay checks only that it is used:
  `RelayPrekeys.PrekeyNamedTwice`.
- Two concurrent deletes of a message can both succeed: `MessageRelay.SecondDelete`.
- The client hides revoked messages from their sender too, the relay does not: `MessageSync.RevokedListedButHidden`.
- The client's canonical bytes always hold null for the forwarded message: `CanonicalRecord.ClientBytesAgree`.
- `logout_all` works on the rows its statement saw, so a rotation that held its lock survives it:
  `RefreshRotation.LogoutAllExact` and `LogoutAllMissesRotation`.

## Model

| member | source | states |
|---|---|---|
| KeccakBits.ThetaOrder | client/src/support/EthereumHash.cpp:61-73 | theta applied 192 times is the identity on every state, so theta is invertible |
| KeccakBits.ThetaDoubling | client/src/support/EthereumHash.cpp:61-73 | applying theta with column step s and rotation r twice is theta with steps 2s and 2r |
| KeccakBits.RhoInverse | client/src/support/EthereumHash.cpp:75-82 | the lane rotations are undone lane by lane, from both sides |
| KeccakBits.PiInverse | client/src/support/EthereumHash.cpp:78-80 | the lane permutation is undone from both sides |
| KeccakBits.ChiInverse | client/src/support/EthereumHash.cpp:84-88 | chi is undone by applying it three more times |
| KeccakBits.KeccakFIsBijective | client/src/support/EthereumHash.cpp:59-93 | the 24 rounds have an explicit two-sided inverse |
| KeccakBits.RhoOffsetsFollowWalk | client/src/support/EthereumHash.cpp:19-25 | every entry of the rotation table is the one generated by the walk of section 3.2.2 of FIPS 202: lane (0, 0) has offset 0 and the walk visits every other lane within 24 steps |
| KeccakWords.RoundConstantsFollowLfsr | client/src/support/EthereumHash.cpp:27-36 | every bit of every round constant is the one the shift register of section 3.2.5 of FIPS 202 generates |
| KeccakWords.KeccakPermutation | client/src/support/EthereumHash.cpp:59-93 | the in-place loop over the 25-word array computes the 24 specified word rounds |
| KeccakWords.RoundInPlace | client/src/support/EthereumHash.cpp:60-92 | one turn of the outer loop is one specified round, through the column, rotation and row buffers |
| KeccakWords.ThetaInPlace | client/src/support/EthereumHash.cpp:61-73 | the parity, theta and xor loops leave the theta image of the state |
| KeccakWords.RhoPiInto | client/src/support/EthereumHash.cpp:75-82 | every lane arrives rotated at its destination; all 25 destinations are filled |
| KeccakWords.ChiFrom | client/src/support/EthereumHash.cpp:84-88 | the row loop writes the chi image of the rotated lanes back |
| KeccakWords.RotatedBit | client/src/support/EthereumHash.cpp:38-43 | rotateLeft moves bit z - n to bit z for every shift below 64, including 0 |
| KeccakWords.RoundBits | client/src/support/EthereumHash.cpp:60-92 | a round on words is iota, chi, pi, rho and theta of section 3.2 of FIPS 202 on their bits |
| KeccakWords.KeccakFBits | client/src/support/EthereumHash.cpp:59-93 | the word permutation is Keccak-f[1600] of FIPS 202 on the bits of the lanes |
| KeccakWords.KeccakFInjective | client/src/support/EthereumHash.cpp:59-93 | different 1600-bit states never permute to the same state |
| KeccakSponge.ReadLittleEndianWord | client/src/support/EthereumHash.cpp:45-51 | the loop reads the word whose bytes, least significant first, are the next eight of the block |
| KeccakSponge.BytesDetermineWord | client/src/support/EthereumHash.cpp:45-57 | reading eight bytes as a word and writing the word back gives the same bytes |
| KeccakSponge.AppendLittleEndianWord | client/src/support/EthereumHash.cpp:53-57 | the loop appends the eight bytes of the word |
| KeccakSponge.PadInput | client/src/support/EthereumHash.cpp:97-102 | the padding loop terminates and appends exactly the specified padding |
| KeccakSponge.PaddingIsStandard | client/src/support/EthereumHash.cpp:98-102 | the padding equals pad10*1 of section 5.1 of FIPS 202 if and only if the length is not 135 modulo 136; there it is exactly one block longer |
| KeccakSponge.PadLength | client/src/support/EthereumHash.cpp:98-102 | padded inputs are whole non-empty numbers of blocks |
| KeccakSponge.PaddingUndone | client/src/support/EthereumHash.cpp:97-102 | the padding of every input is removed by an unpad function |
| KeccakSponge.AddBlockInPlace | client/src/support/EthereumHash.cpp:104-107 | the lane loop xors the block into the first 17 words and leaves the capacity alone |
| KeccakSponge.AddedBlock | client/src/support/EthereumHash.cpp:104-107 | adding a block lane by lane is the bitwise sum with the block followed by 512 zeros |
| KeccakSponge.AbsorbedBits | client/src/support/EthereumHash.cpp:104-109 | absorbing any bytes into words is absorbing their bits into the state string |
| KeccakSponge.Keccak256 | client/src/support/EthereumHash.cpp:95-119 | the whole loop structure returns the specified digest |
| KeccakSponge.Squeeze | client/src/support/EthereumHash.cpp:111-118 | the output loop takes four words, 32 bytes |
| KeccakSponge.SqueezedBits | client/src/support/EthereumHash.cpp:111-118 | the output is the first 256 bits of the state |
| KeccakSponge.DigestIsSponge | client/src/support/EthereumHash.cpp:95-119 | for every input the digest is the sponge of section 4 of FIPS 202 over the padded bits |
| KeccakSponge.DigestIsStandard | client/src/support/EthereumHash.cpp:95-119 | for every length not 135 modulo 136 the digest is SPONGE[Keccak-f[1600], pad10*1, 1088] with 256 output bits |
| KeccakSponge.LastBlockIsKept | client/src/support/EthereumHash.cpp:95-110 | inputs that agree on their whole blocks and differ in at most 134 further bytes reach different full states |
| Merkle.HashPairCommutes | blockchain/src/merkle.ts:13-20 | pair hashing ignores argument order and letter case |
| Merkle.SamePreimage | blockchain/src/merkle.ts:13-20 | equal pair preimages come from the same two nodes in some order |
| Merkle.HashPairPreimage | blockchain/src/merkle.ts:13-20 | a pair is hashed as 128 lower-case digits, the two values in ascending numeric order, and no other text has that form |
| Merkle.NodeIsHash | blockchain/src/merkle.ts:36-47 | every inner node is the hash of its two children in that form, an odd last child paired with itself |
| Merkle.TwoLeafRoot | blockchain/src/merkle.ts:29-49 | the root over two leaves is the hash of the smaller followed by the larger |
| Merkle.NextLayerOf | blockchain/src/merkle.ts:37-45 | the inner loop pairs neighbours and pairs an odd last node with itself |
| Merkle.BuildMerkleTree | blockchain/src/merkle.ts:29-49 | building fails exactly on no leaves, terminates, keeps the value of every leaf, and yields layers related by pairing up to one root |
| Merkle.GetProof | blockchain/src/merkle.ts:51-68 | fails exactly out of range; otherwise the siblings on the way up |
| Merkle.VerifyMerkleProof | blockchain/src/merkle.ts:70-91 | the loop decides whether the fold of the proof is the root, in any letter case |
| Merkle.VerifiesInAnyCase | blockchain/src/merkle.ts:70-91 | the answer depends only on the values of root and leaf, not on their letter case |
| Merkle.FoldClimbs | blockchain/src/merkle.ts:51-76 | the running hash after k siblings is node i / 2^k of layer k |
| Merkle.UpIsDivision | blockchain/src/merkle.ts:65 | k halvings of an index divide it by 2^k |
| Merkle.LeafVerifies | blockchain/src/merkle.ts:51-76 | completeness: every leaf verifies with its proof, whose length is ceil(log2 n) |
| Merkle.CeilLog2Bounds | blockchain/src/merkle.ts:36-47 | the number of layers above the leaves is the rounded-up binary logarithm |
| Merkle.NodeVerifies | blockchain/src/merkle.ts:51-91 | every inner node verifies too, with one sibling per layer above it |
| Merkle.RunStartsInTree | blockchain/src/merkle.ts:70-76 | a proof run ending at a tree node started at a node that many layers below it, or two named preimages collide |
| Merkle.VerifiedValueIsNode | blockchain/src/merkle.ts:29-91 | soundness for proofs of every length: the value is a node of layer depth - k (a leaf for k = depth), for longer proofs the running hash after the surplus is a leaf, or two named preimages collide |
| Merkle.RootBindsLayer | blockchain/src/merkle.ts:29-49 | binding at any two depths: the roots of a tree k layers deeper and of another are equal if and only if layer k of the first and the second are one tree up to exchanging children (one direction up to a named collision), hence the same set of nodes |
| Merkle.RootBindsLeaves | blockchain/src/merkle.ts:29-49 | the case of equal depth: equal roots if and only if the same tree up to exchanging children (one direction up to a named collision), hence the same set of leaves |
| Merkle.LayerHasSameRoot | blockchain/src/merkle.ts:36-49 | at unequal depth a root does not tell leaves from inner nodes: every layer of a tree, built as a list of leaves, has the root of the tree |
| Conversation.TransitiveExactlyOnSafePatterns | blockchain/src/conversation.ts:34-39 | the sort comparator is transitive on every list of a timestamp pattern if and only if all messages carry a timestamp or at most one does |
| Conversation.UnsafePatternFails | blockchain/src/conversation.ts:34-39 | for every other pattern a concrete list on which the comparator is not transitive |
| Conversation.OldestFirst | blockchain/src/conversation.ts:34-39 | in a sorted conversation of a safe pattern, messages of different times come oldest first and all others by their ids |
| Conversation.BuildConversationMerkleTree | blockchain/src/conversation.ts:29-47 | fails exactly on no messages; otherwise the tree over the sorted messages, whose leaves hash the id followed by the 32-byte hash of the text |
| Conversation.GetProofForMessage | blockchain/src/conversation.ts:48-54 | fails exactly for unknown ids; otherwise the proof of the first message with the id |
| Conversation.VerifyMessage | blockchain/src/conversation.ts:55-58 | checks the recomputed leaf against the root |
| Conversation.EveryMessageVerifies | blockchain/src/conversation.ts:29-60 | completeness for every conversation with distinct ids, in whatever order the sort left it |
| Conversation.LookedUpProofVerifies | blockchain/src/conversation.ts:48-58 | with repeated ids: the proof looked up for a message verifies if and only if the message has the leaf of the first holder of its id (one direction up to a named collision) |
| Conversation.LeafBindsMessage | blockchain/src/merkle.ts:5-10 | equal leaves mean equal id and text, or two named preimages collide |
| Conversation.VerifiedMessageIsMember | blockchain/src/conversation.ts:55-58 | soundness: a text verifying with a full-length proof is a message of the conversation, or a named pair collides |
| Conversation.ConversationHasOneRoot | blockchain/src/conversation.ts:29-47 | distinct ids and a safe pattern of timestamps give one order and one root, whatever order the messages arrive in; a sort that leaves neighbours in order is enough |
| FidelityContract.MessageFidelity.StoreHash | blockchain/contracts/MessageFidelity.sol:29-43 | succeeds exactly for the owner on a missing record and then stores hash and block time; a reverting call changes nothing and says which check failed |
| FidelityContract.MessageFidelity.GetHash | blockchain/contracts/MessageFidelity.sol:45-55 | returns the record or reverts exactly when it is missing |
| FidelityContract.MessageFidelity.VerifyMessageInHistory | blockchain/contracts/MessageFidelity.sol:78-85 | checks a proof against the stored root |
| FidelityContract.RecordsAreWriteOnce | blockchain/contracts/MessageFidelity.sol:29-43 | over every sequence of calls by anyone an existing record keeps its hash and time |
| FidelityContract.StoreIsPermanent | blockchain/contracts/MessageFidelity.sol:33-41 | a successful store is permanent if and only if its block time is not zero |
| Hexadecimal.LexIsNumeric | blockchain/contracts/MessageFidelity.sol:69 | comparing lower-case hexadecimal texts is comparing the numbers the contract compares |
| FidelityContract.VerifyOnChain | blockchain/contracts/MessageFidelity.sol:61-76 | the on-chain check decides the same as the TypeScript verifier |
| AnchorProtocol.StepKeepsInv | server/backend/app/workers/blockchain_worker.py:189-248 | every step of sends, retries, workers, mining, reverts and crashes keeps the protocol invariant |
| AnchorProtocol.ConfirmedIsOnChain | server/backend/app/workers/blockchain_worker.py:233-248 | in every reachable state a confirmed row's record holds exactly its hash on chain, at the row's time |
| AnchorRaces.ConfirmedOnceExactly | server/backend/app/services/blockchain_anchor_service.py:52-76 | over all runs whose rows come from messages, no record id has two confirmed rows if and only if the node refuses a transaction it already has, or the submitting account does not own the contract, or failures are not marked (the shipped default) and no two messages share both record id and digest |
| AnchorRaces.RaceThenTwins | server/backend/app/workers/blockchain_worker.py:214-242 | with marked failures and otherwise the failing settings: a run from the empty system, of one send, two racing retries and two workers, that confirms two rows of one record |
| AnchorRaces.MessagesThenTwins | server/backend/app/workers/blockchain_worker.py:214-242 | the same for any two messages that share record id and digest |
| AnchorRaces.SharedRecordOneWins | server/backend/app/workers/blockchain_worker.py:214-242 | messages that share only the record id never both have confirmed rows, in any run and setting |
| AnchorRaces.ForeignRowsConfirmOnceExactly | server/backend/app/workers/blockchain_worker.py:114-156 | over runs in which rows also come from elsewhere, only the first two of these conditions help |
| AnchorProtocol.LockExclusion | server/backend/app/repositories/blockchain_anchor_repository.py:138-147 | no two workers ever hold one row, and a held row is pending |
| AnchorProtocol.TerminalForever | server/backend/app/repositories/blockchain_anchor_repository.py:150-177 | confirmed and failed rows never change again |
| AnchorProtocol.ValidAnswerIsOnChain | server/backend/app/services/blockchain_anchor_service.py:128-168 | a valid verify answer means the hash is on chain now and after every further run; for a message's own row it is the digest asked about, under the message's record id |
| AnchorProtocol.ConfirmedAnswersExactly | server/backend/app/services/blockchain_anchor_service.py:128-168 | a message's confirmed row answers, now and after every run, exactly the requests that name its digest and chain and, where they name them, its record id, hash and transaction |
| AnchorProtocol.InsertedRow | server/backend/app/services/blockchain_anchor_service.py:52-76 | a send and a retry insert a pending row for the message with its record id and digest and nothing else |
| AnchorProtocol.OrphanNeverConfirms | server/backend/app/workers/blockchain_worker.py:214-231 | an unconfirmed record on chain that no worker waits for (or, where a node accepts transactions it already has, that no known transaction wrote) is never confirmed by any later run |
| AnchorProtocol.WaitingConfirms | server/backend/app/workers/blockchain_worker.py:214-242 | a worker that waits for the landed transaction of a record can confirm it in the next step |
| AnchorProtocol.CanStillConfirm | server/backend/app/workers/blockchain_worker.py:214-242 | when the node refuses a transaction it already has: some run confirms an unconfirmed record on chain if and only if a worker is waiting for it |
| AnchorRecovery.CanStillConfirmByResending | server/backend/app/workers/blockchain_worker.py:107-156 | when the node takes a transaction again: in every state reached with rows from messages, some such run confirms an unconfirmed record on chain if and only if a transaction of the pipeline wrote it |
| AnchorProtocol.CrashAfterLandingOrphans | server/backend/app/workers/blockchain_worker.py:214-242 | a crash between the transaction landing and the commit leaves such a record |
| AnchorProtocol.MessageRowKeepsInv | server/backend/app/services/blockchain_anchor_service.py:52-76 | inserting a message's pending row, with a send or after a retry's check, keeps the invariant |
| AnchorRaces.OneActiveExactly | server/backend/app/services/blockchain_anchor_service.py:52-76 | over all runs a message has at most one active anchor if and only if failures are not marked (the shipped default) |
| AnchorRaces.RetriesRace | server/backend/app/services/blockchain_anchor_service.py:52-76 | two retries that both look before either inserts leave a message two active anchors, for every state in which it has none, any rows and any requests |
| AnchorRaces.RaceFromInit | server/backend/app/services/blockchain_anchor_service.py:52-76 | when failures are marked such a state is reached: from the empty system, for any message, a run that ends with two |
| AnchorRaces.InsertKeepsOneActive | server/backend/app/services/blockchain_anchor_service.py:52-76 | an insert leaves at most one active anchor if and only if none is active at the moment of the insert |
| AnchorProtocol.Worker.GetNextPendingForUpdate | server/backend/app/repositories/blockchain_anchor_repository.py:138-147 | the pending row nobody has locked with the earliest creation time, then the lowest id, or none exactly when there is none |
| AnchorProtocol.Worker.SubmitHash | server/backend/app/workers/blockchain_worker.py:107-156 | broadcasts at most one transaction and returns normally if and only if it lands, at the time LandsAt gives from the row, the node, the chain and the account |
| AnchorProtocol.Worker.SubmitAndCommit | server/backend/app/workers/blockchain_worker.py:202-248 | the outcome from the input: failed if malformed; confirmed with its transaction, written hash, contract and landing time if the submission lands; otherwise failed if failures are marked, else an error that changes no row; no other row changes |
| AnchorProtocol.NewSubmissionLands | server/backend/app/workers/blockchain_worker.py:107-156 | a row with 32-byte values lands when the account owns the contract, there is no record under the id, and the transaction is new |
| AnchorProtocol.Worker.ProcessNextPendingAnchor | server/backend/app/workers/blockchain_worker.py:189-248 | False exactly when no unlocked pending row exists; otherwise the oldest one has that outcome |
| AnchorProtocol.Worker.ProcessPendingBatch | server/backend/app/workers/blockchain_worker.py:180-187 | the count is the number of rows that stopped being pending, and a short count means none is left |
| RateLimiter.InMemoryRateLimiter.Check | server/backend/app/core/rate_limit.py:49-78 | the new state and the answer are those of cleaning then checking; disabled and invalid rules change nothing |
| RateLimiter.InMemoryRateLimiter.CleanupExpired | server/backend/app/core/rate_limit.py:85-93 | removes exactly the windows their key says are over |
| RateLimiter.WindowSurvivesKey | server/backend/app/core/rate_limit.py:112-129 | the window number survives printing into a key and parsing out of it, for every integer |
| RateLimiter.KeysSeparateCallers | server/backend/app/core/rate_limit.py:112-120 | two keys are equal if and only if window, scope, kind of caller and caller are, whatever the caller's id holds, when scopes and kinds hold no colon |
| RateLimiter.ColonScopeMeets | server/backend/app/core/rate_limit.py:112-120 | a scope with a colon shares its keys with another scope and kind |
| RateLimiter.CleaningInvisible | server/backend/app/core/rate_limit.py:65-93 | on every ordered trace over any keys, cleaning before each call changes no answer |
| RateLimiter.CleaningInvisibleExactly | server/backend/app/core/rate_limit.py:85-93 | that holds on all traces of a key if and only if the key announces at least the rule's window |
| RateLimiter.StoredWindowsLive | server/backend/app/core/rate_limit.py:65-78 | every window stored after a call is still live |
| RateLimiter.IntervalBound | server/backend/app/core/rate_limit.py:65-78 | any closed interval of at most n windows accepts at most limit (n + 1) calls, one fewer unless its length is exactly n windows |
| RateLimiter.BoundIsAttained | server/backend/app/core/rate_limit.py:65-78 | for every rule and length some trace reaches that bound |
| RateLimiter.LimiterBound | server/backend/app/core/rate_limit.py:49-93 | the cleaning limiter on any interleaving of keys accepts at most limit (ceil(T / W) + 1) calls of a key in T seconds |
| RateLimiter.KeysIndependent | server/backend/app/core/rate_limit.py:65-78 | calls on other keys do not affect a key |
| RateLimiter.RetryAfterExact | server/backend/app/core/rate_limit.py:73-76 | retry_after lies in 1..W; calls from then on are accepted, calls at least a second earlier are not |
| CanonicalReading.TextReadsBack | server/backend/app/core/blockchain_hashing.py:32-53 | a JSON reader defined on its own finds in the text one object of the eight members, each name with its value |
| CanonicalReading.NamesAscend | server/backend/app/core/blockchain_hashing.py:48-53 | the names come in ascending order |
| CanonicalRecord.TextInjective | server/backend/app/core/blockchain_hashing.py:32-53 | equal canonical JSON texts mean equal records in all eight fields |
| CanonicalRecord.EscapedCancels | server/backend/app/core/blockchain_hashing.py:48-53 | an escaped string is determined by its text whatever follows it |
| CanonicalRecord.Utf8Injective | server/backend/app/core/blockchain_hashing.py:53 | UTF-8 encoding is injective |
| CanonicalRecord.Utf8CharStandard | server/backend/app/core/blockchain_hashing.py:53 | number, ranges and value of the bytes of a character as in section 3 of RFC 3629 |
| CanonicalRecord.RecordIdPreimages | server/backend/app/core/blockchain_hashing.py:13-20 | record ids hash message: or batch: in ASCII followed by the id |
| CanonicalRecord.BytesInjective | server/backend/app/core/blockchain_hashing.py:32-53 | equal canonical bytes mean equal records |
| CanonicalRecord.DigestBindsRecord | server/backend/app/core/blockchain_hashing.py:23-29 | equal digests mean equal records, or the two byte strings collide |
| CanonicalRecord.RecordIdBinds | server/backend/app/core/blockchain_hashing.py:13-20 | equal record ids mean the same message, and a batch never shares a message's, without a collision |
| CanonicalRecord.ClientBytesAgree | client/src/support/EthereumHash.cpp:132-156 | the client recomputes the server's bytes if and only if the message is not a forward and its time text, raw or printed from the parsed time, agrees |
| CanonicalRecord.ClientDateTimeReadsBoth | client/src/support/EthereumHash.cpp:132-140 | a UTC time is normalised from either spelling of its offset, and from the parsed time when the raw text is empty |
| MessageRelay.Relay.SendMessage | server/backend/app/services/message_service.py:41-64 | succeeds if and only if the recipient and both devices are active and a named prekey is used; inserts a row with exactly the request's values that both users see, or reports the first failing check and changes nothing |
| MessageRelay.Relay.ForwardMessage | server/backend/app/services/message_service.py:159-192 | succeeds if and only if the original is accessible and a send would; the original stays as it is, the new row has the request's values and names it |
| MessageRelay.Relay.DeleteMessageForUser | server/backend/app/services/message_service.py:93-127 | succeeds if and only if the caller sees the message in the role acted on; then that role loses it, a self-addressed message stays in the other role, and nobody else's view changes |
| MessageRelay.Relay.RevokeMessageAccess | server/backend/app/services/message_service.py:130-156 | succeeds if and only if the caller sent the message and it is not deleted; takes it from its recipient and from nobody's sent list; otherwise the two errors without change |
| MessageRelay.Relay.MarkSenderDeleted | server/backend/app/repositories/message_repository.py:92-113 | succeeds exactly on a message its sender still sees |
| MessageRelay.Relay.MarkRecipientDeleted | server/backend/app/repositories/message_repository.py:116-138 | succeeds exactly on a message its recipient still sees |
| RelayPrekeys.ConsumedPrekeyWasHandedOut | server/backend/app/services/message_service.py:224-246 | over all interleavings of messages, uploads and fetches the prekey a stored message names is a row of its recipient's device that exactly one fetch gave away |
| RelayPrekeys.PrekeyNamedTwice | server/backend/app/services/message_service.py:224-246 | two sends, by any users, that name one prekey are both stored if and only if the recipient and the three devices are active and the prekey is used: naming does not use it up |
| RelayPrekeys.PrekeyNamedTwiceFromInit | server/backend/app/services/message_service.py:224-246 | for any two such requests a run from the empty tables, of an upload, one fetch and the two sends, that ends with both stored |
| MessageRelay.Relay.ListPage | server/backend/app/repositories/message_repository.py:59-89 | the page of the unique listing of the visible messages, by descending time and id |
| MessageRelay.CanonicalBytesStable | server/backend/app/core/blockchain_hashing.py:32-53 | no interleaving of the reads and writes of sends, forwards, deletes and revokes changes a stored message's canonical bytes |
| MessageRelay.AnchoredMembers | server/backend/app/core/blockchain_hashing.py:32-53 | what a JSON reader finds in a stored message's text: each of its columns under its name |
| MessageRelay.HiddenStaysHidden | server/backend/app/repositories/message_repository.py:44-56 | over every such interleaving, what a user stops seeing, in either role, is never visible to the user again |
| MessageRelay.SecondDelete | server/backend/app/services/message_service.py:93-127 | over every interleaving: a second delete by the same user passes its checks from the first one's read on until a tombstone against the role is written, and never after the first one's write |
| MessageRelay.DeletedForGood | server/backend/app/services/message_service.py:93-156 | from a passed check on, over every interleaving around the write, a delete keeps the message from its user for ever unless the user sent it to himself, and a revoke keeps it from every recipient |
| MessageRelay.ForwardsStayKnown | server/backend/app/services/message_service.py:159-192 | over every interleaving a forwarded message names another stored message that its author sent or received |
| LocalStore.JsonLocalStore.SaveMessage | client/src/storage/JsonLocalStore.cpp:605-635 | a new id is appended, a known one merged |
| LocalStore.SavedEffect | client/src/storage/JsonLocalStore.cpp:605-635 | of a known id the newer version is kept, with the older read mark, sender copy, anchor and tombstones only where it has none; no other message changes |
| LocalStore.JsonLocalStore.MarkMessageDeletedFor | client/src/storage/JsonLocalStore.cpp:637-656 | sets the tombstones of the caller's roles, or the global one |
| LocalStore.DeletedEffect | client/src/storage/JsonLocalStore.cpp:637-656 | the message is hidden from the caller; a participant hides it from nobody else, anyone else from everybody; nothing else changes |
| LocalStore.DeletedUnknown | client/src/storage/JsonLocalStore.cpp:637-643 | an id the cache does not hold changes nothing |
| LocalStore.DeletedForGood | client/src/storage/JsonLocalStore.cpp:637-656 | and stays hidden from the caller over every later run that keeps its participants |
| LocalStore.JsonLocalStore.ReconcileVisibleMessages | client/src/storage/JsonLocalStore.cpp:658-678 | hides exactly the visible messages of the direction that are not listed |
| LocalStore.ReconciledEffect | client/src/storage/JsonLocalStore.cpp:658-678 | received ones are marked revoked, sent ones deleted by their sender, and nothing else changes |
| LocalStore.JsonLocalStore.MarkConversationRead | client/src/storage/JsonLocalStore.cpp:752-761 | marks exactly the peer's unread incoming messages |
| LocalStore.ReadEffect | client/src/storage/JsonLocalStore.cpp:752-761 | sets only their read mark, and only where there is none |
| LocalStore.SaveMessages | client/src/services/Services.cpp:737-745 | saves in order up to the first write that fails |
| LocalStore.SavedUpToExactly | client/src/services/Services.cpp:737-745 | the saved messages are those up to and with the first whose write fails |
| LocalStore.SaveAndReconcileMessages | client/src/services/Services.cpp:747-758 | then reconciles against all listed ids |
| LocalStore.NothingLost | client/src/storage/JsonLocalStore.cpp:605-678 | over every run ids stay unique and no message, read mark, sender copy, anchor or tombstone is lost |
| LocalStore.HiddenStaysHidden | client/src/storage/JsonLocalStore.cpp:246-254 | over every run that keeps a message's participants, hidden stays hidden |
| LocalStore.HiddenFromEveryRefresh | client/src/storage/JsonLocalStore.cpp:605-633 | without that, a hidden message is safe from every refresh if and only if it is deleted or revoked for everyone |
| LocalStore.SyncCoherent | client/src/services/Services.cpp:747-758 | after saving and reconciling a listing the user sees in that direction exactly the listed ids without tombstone, for any earlier cache |
| LocalStore.FailedWritesShowNoMore | client/src/services/Services.cpp:737-758 | with failing writes the cache still shows nothing outside the listing |
| LocalStore.MergedVisibility | client/src/storage/JsonLocalStore.cpp:246-254 | a merged copy is visible if and only if both versions are, under the newer participants |
| MessageSync.FetchMessages | client/src/gateways/HttpGateways.cpp:619-636 | for any page answers in any number: stops at the first failure with its error, at the first short page with all rows so far, and otherwise waits |
| MessageSync.StableFetch | client/src/gateways/HttpGateways.cpp:619-636 | while the listing stays as it is the recursion over pages of 100 ends; it fails if and only if some page it asks for fails, and otherwise returns the whole listing |
| MessageSync.FetchedWasListed | client/src/gateways/HttpGateways.cpp:619-636 | when the table changes between requests in any way, every fetched message is a row listed for the user at one of them |
| MessageSync.FetchedFields | client/src/gateways/HttpGateways.cpp:651-672 | each field of the fetched copy holds the value of the row's column of that name |
| MessageSync.ShiftedFetch | client/src/gateways/HttpGateways.cpp:619-636 | when one message leaves the listing after the first request, the first message of the second page is fetched if and only if the one that left stood behind it |
| MessageSync.SkippedIsHidden | client/src/services/Services.cpp:747-758 | a message skipped that way, which the relay still lists, is hidden by the refresh whatever the cache held |
| MessageSync.SyncExact | client/src/services/Services.cpp:747-758 | the visible ids are those of listed messages whose merged copy has no tombstone |
| MessageSync.RefreshCoherent | client/src/services/Services.cpp:747-758 | end to end from the relay's rows, for any cache: listed, not hidden by a tombstone of the row, not hidden by an older copy |
| MessageSync.RevokedListedButHidden | client/src/storage/JsonLocalStore.cpp:246-254 | a revoked message stays in the relay's sent list and leaves the sender's own view |
| ConversationSummaries.ConversationsFor | client/src/storage/JsonLocalStore.cpp:707-738 | the loop builds the specified summaries in key order |
| ConversationSummaries.UnreadConversationsFor | client/src/storage/JsonLocalStore.cpp:740-750 | keeps, in order, exactly the summaries with unread messages |
| ConversationSummaries.UnreadInOrder | client/src/storage/JsonLocalStore.cpp:740-750 | the filter keeps the order of the summaries |
| ConversationSummaries.MessagesWithPeer | client/src/storage/JsonLocalStore.cpp:694-705 | the visible messages between the two users, by time |
| ConversationKeys.KeysMeetExactly | client/src/storage/JsonLocalStore.cpp:716 | exactly when two keys are equal, for all user ids, devices and locales, with markers in the user id replaced as the two substitutions do |
| ConversationKeys.KeySeparates | client/src/storage/JsonLocalStore.cpp:716 | the key separates all users and devices among user ids that hold no place marker numbered 0, 1 or 2 |
| ConversationKeys.MarkedIdMeetsAnother | client/src/storage/JsonLocalStore.cpp:716 | every other user id shares a key with a different user id |
| ConversationKeys.MarkerCollision | client/src/storage/JsonLocalStore.cpp:716 | the user %2 on device 5 has the key of the user 5 on device 5 |
| ConversationSummaries.SummaryOfKey | client/src/storage/JsonLocalStore.cpp:707-738 | for all user ids: under each key lies the first user and device with it, the first non-empty name, and the counts and latest time of all messages with the key |
| ConversationSummaries.TalkExactly | client/src/storage/JsonLocalStore.cpp:707-738 | a message counts for a device if the user sent it to that device or it came from there, and is unread if it came from there without read mark |
| ConversationSummaries.LatestExactly | client/src/storage/JsonLocalStore.cpp:727-729 | the latest time is one of the counted messages' and none of theirs is later |
| ConversationSummaries.SummaryExact | client/src/storage/JsonLocalStore.cpp:707-738 | the summary of a device is exact, and exists exactly when a visible message is exchanged with it, if and only if only messages with the device have its key |
| ConversationSummaries.PlainApart | client/src/storage/JsonLocalStore.cpp:716 | that holds for every device when no user id in the cache holds such a marker |
| ConversationSummaries.MarkedUsersMerge | client/src/storage/JsonLocalStore.cpp:707-738 | a message exchanged with the user 5 on device 5 spoils the summary of the user %2 on device 5 |
| ConversationSummaries.ConversationsInOrder | client/src/storage/JsonLocalStore.cpp:708-736 | summaries come in strictly increasing key order |
| ConversationSummaries.KeyLessExactly | client/src/storage/JsonLocalStore.cpp:708 | the order of the keys is decided by their first different character |
| ConversationSummaries.CountsConserved | client/src/storage/JsonLocalStore.cpp:707-738 | message and unread counts add up to the visible and the visible unread incoming messages |
| ConversationSummaries.PeerCountsAgree | client/src/storage/JsonLocalStore.cpp:694-738 | a peer's counts are the peer's message list plus what the peer sent to others, when devices with one key belong to one user |
| ConversationSummaries.PeerCountsExactly | client/src/storage/JsonLocalStore.cpp:694-738 | they agree all the way through the cache, for every peer, if and only if devices with one key belong to one user |
| ConversationSummaries.PlainOnePeerPerKey | client/src/storage/JsonLocalStore.cpp:716 | and devices with one key do belong to one user when no user id holds such a marker |
| ConversationSummaries.ReadZeroesPeer | client/src/storage/JsonLocalStore.cpp:752-761 | marking read leaves the peer only unread messages not addressed to the user and changes no other count or time |
| ConversationSummaries.OwnMailRead | client/src/storage/JsonLocalStore.cpp:752-761 | in a cache of the user's own mail whose keys stay apart: that peer's unread count becomes 0, every other summary is unchanged, counts agree with the lists |
| PrekeyHandout.StepKeepsInv | server/backend/app/api/v1/keys.py:107-193 | every step of any interleaving keeps the invariant |
| PrekeyHandout.HandedOutOnce | server/backend/app/api/v1/keys.py:184-193 | over all interleavings no prekey is given away by two fetches, and what is given away is a used row |
| PrekeyHandout.Conservation | server/backend/app/repositories/one_time_prekey_repository.py:89-104 | per device: uploaded = unused + given away, in every reachable state |
| PrekeyHandout.RowsStay | server/backend/app/repositories/one_time_prekey_repository.py:78-86 | committed rows stay, keep their public key, and once used stay used |
| PrekeyHandout.KeysApi.UploadOneTimePrekeys | server/backend/app/api/v1/keys.py:83-132 | the whole batch or nothing: afterwards each uploaded id has its public key, unused, and every older row is as before; with the three error answers |
| PrekeyHandout.KeysApi.GetUnusedForDevice | server/backend/app/repositories/one_time_prekey_repository.py:36-58 | the lowest unused, unlocked prekey of the device |
| PrekeyHandout.KeysApi.GetPrekeyBundle | server/backend/app/api/v1/keys.py:139-193 | hands out that prekey and marks it used, or answers without one when there is none |
| RefreshRotation.StepKeepsInv | server/backend/app/services/auth_service.py:94-211 | every step of logins, refreshes, logouts and aborts keeps the invariant |
| RefreshRotation.RotatesOnce | server/backend/app/services/auth_service.py:124-164 | over all interleavings a token is exchanged at most once and each login has at most one unrevoked session |
| RefreshRotation.LogoutEndsLogin | server/backend/app/services/auth_service.py:179-197 | a logout that found its session ends the whole login for ever |
| RefreshRotation.LogoutExact | server/backend/app/services/auth_service.py:179-197 | an uninterrupted logout ends the login if and only if it found the token active or the login had ended |
| RefreshRotation.LogoutAllExact | server/backend/app/repositories/refresh_session_repository.py:99-110 | logout_all revokes everything live when it began; what is left are exactly the sessions that a login or a rotation commit creates during the statement and no later step revokes, so nothing is left when there is no such step |
| RefreshRotation.LogoutAllMissesRotation | server/backend/app/repositories/refresh_session_repository.py:99-110 | a concrete run in which a rotation under way survives logout_all |
| RefreshRotation.AuthService.CreateLoginTokens | server/backend/app/services/auth_service.py:94-121 | adds a first session under the fresh token and changes no other |
| RefreshRotation.AuthService.RefreshAccessToken | server/backend/app/services/auth_service.py:124-176 | a new token exactly for a stored, unrevoked and unexpired token of an active user, whose session it revokes; otherwise no session changes |
| RefreshRotation.AuthService.Logout | server/backend/app/services/auth_service.py:179-200 | revokes exactly the session of a stored, unrevoked and unexpired token, and reports success either way |
| RefreshRotation.AuthService.LogoutAll | server/backend/app/services/auth_service.py:203-211 | alone, revokes and counts exactly the user's live sessions |
| KeyAgreement.BigEndianInjective | client/src/crypto/NativeSignalCryptoProvider.cpp:21-28 | four big-endian bytes determine a 32-bit integer |
| KeyAgreement.AadInjective | client/src/crypto/NativeSignalCryptoProvider.cpp:516-518 | the associated data determine both counters and the ratchet key |
| KeyAgreement.WireRoundTrip | client/src/crypto/NativeSignalCryptoProvider.cpp:34-53 | unwrapping a wrapped payload gives it back |
| KeyAgreement.SameKey | client/src/crypto/NativeSignalCryptoProvider.cpp:333-338 | both sides compute the same three agreement outputs in the same order and the same message key |
| KeyAgreement.KeysFromPrimitives | client/src/crypto/NativeSignalCryptoProvider.cpp:333-338 | both keys written out: HMAC of byte 1 under the second half of the HKDF of the ratchet output, salted with the HKDF of the three agreement outputs in order |
| KeyAgreement.KeyDerivation | client/src/crypto/NativeSignalCryptoProvider.cpp:477-492 | the arguments of that derivation: 32 zero bytes as salt, the info text, lengths 32 and 64, the second half, byte 1 |
| KeyAgreement.KeyBindsInputs | client/src/crypto/NativeSignalCryptoProvider.cpp:477-492 | equal message keys come from equal agreement outputs and equal ratchet outputs, or two named inputs of one primitive have one output |
| KeyAgreementLaws.KeyShowsItsInputs | client/src/crypto/NativeSignalCryptoProvider.cpp:333-338 | under primitives that record what they are asked, the key lists the two keys of the ratchet step and the six of the agreements in order |
| KeyAgreement.WireMembers | client/src/crypto/NativeSignalCryptoProvider.cpp:345-372 | what is on the wire: the envelope, and in its body every value under its name, sealed under eight zero bytes and the ratchet key |
| KeyAgreement.BigEndianValue | client/src/crypto/NativeSignalCryptoProvider.cpp:21-28 | the four bytes are the two's complement of the integer, the highest first |
| KeyAgreement.DecryptRefuses | client/src/crypto/NativeSignalCryptoProvider.cpp:387-393 | a payload without envelope and key agreement fields is not decrypted |
| KeyAgreement.EncryptSucceeds | client/src/crypto/NativeSignalCryptoProvider.cpp:309-373 | encryption succeeds if and only if the text is not blank, the drawn keys have their size and the cipher works |
| KeyAgreement.DecryptsWhatWasEncrypted | client/src/crypto/NativeSignalCryptoProvider.cpp:309-424 | the recipient decrypts to the plaintext, for all matching keys and encrypted texts |
| KeyAgreement.HeaderTamperingRejected | client/src/crypto/NativeSignalCryptoProvider.cpp:387-421 | any wire text with rewritten counters or ratchet key decrypts if and only if they still read the same, or the cipher opened a box under data it was not sealed with |
| KeyAgreement.FlaggedPrekeyFails | client/src/crypto/NativeSignalCryptoProvider.cpp:402-407 | a message flagged with a one-time prekey does not decrypt, or two named inputs of one primitive have one output, or the cipher opened a box under a key it was not sealed with |
| KeyAgreementLaws.HypothesesConsistent | client/src/crypto/NativeSignalCryptoProvider.cpp:309-424 | the laws asked of the primitives, matching keys and a successful encryption hold together for explicit primitives and keys, where decryption gives the text back |

## Left out

- Networking, TLS, files, consoles and the user interface: only their effect on the modelled state appears, such as a
  write that fails after the list in memory has changed.
- OpenSSL, PBKDF2, Argon2, token signing, libsignal, ethers and web3: parameters with the laws they are used for.
- PostgreSQL and SQLAlchemy: tables are maps; row locks, waiting, skipping of locked rows and commits are steps.
- FastAPI routes besides the prekey endpoints, schemas, audit events, security headers, migrations and settings: single
  checks that would add easy members. The rate limit in front of the prekey endpoints is modelled on its own.
- Storing anything but messages in the client (device keys, trust pins, sessions), mock gateways and crypto, command
  parsing, and the browser's second copy of the Merkle code.
- Liveness: that a pending anchor is ever confirmed, that a retry ever succeeds. A record orphaned by a crash never is,
  which is proved.
- Merkle.BuildMerkleTree: leaves are 32-byte hexadecimal values, as their type says. The code does not check it: one
  other string alone becomes its own root, several make ethers raise when it hashes a pair.
- Merkle.GetProof: the index is an integer, where the source takes any JavaScript number.
- Conversation.BuildConversationMerkleTree: Array.sort, localeCompare and UTF-8 encoding are parameters; of the sort the
  model uses only that it rearranges its input, and consistency where the order matters.
- AnchorProtocol.Worker.SubmitHash: a transaction is identified by its nonce, gas price and arguments; whether a node
  refuses to broadcast one it already has is a setting of the model, and nonces and gas prices are whatever the node
  answers, also ones used before. Gas, balances and reorganisations of the chain are
  not modelled, and blocks carry non-zero timestamps.
- AnchorProtocol.MessageRowKeepsInv: the access check before a retry is left out, so more retries are possible than the
  service allows.
- RateLimiter.InMemoryRateLimiter.Check: real-valued time, where the source has floating point; the clock does not run
  backwards. The lock around the body is what makes one call one step.
- RateLimiter.WindowSurvivesKey: int also accepts digits and blanks outside ASCII, which are not modelled; no windowed key
  contains them.
- CanonicalRecord.TextInjective: texts are sequences of Unicode scalar values; lone surrogates do not occur.
- MessageRelay.Relay.SendMessage: the pending anchor inserted in the same transaction is a step of AnchorProtocol.
- MessageRelay.Relay.ForwardMessage: likewise.
- MessageRelay.Relay.ListPage: identifiers are numbers in the order the database sorts them.
- LocalStore.JsonLocalStore.SaveMessage: the file itself is not modelled, only whether writing it succeeded.
- QString::arg is Qt's code, not the repository's: place markers are a percent sign, an optional L and one or two ASCII
  digits, 0 to 99.
- ConversationKeys.MarkedIdMeetsAnother: the locale's minus sign and digits are parameters; the sign does not start like
  part of a place marker and neither holds a percent sign.
- ConversationSummaries.ConversationsFor: texts compare by scalar value, where Qt compares UTF-16 code units; counts are
  not bounded to 32 bits.
- ConversationSummaries.MessagesWithPeer: std::sort is a parameter; messages of one time may come in any order.
- MessageSync.FetchMessages: answers arrive one at a time, in the order of the requests, as the callback asks for the next
  page only then.
- PrekeyHandout.KeysApi.UploadOneTimePrekeys: a call that would wait for another open batch with one of its keys is made
  when that batch has ended; the steps cover both orders.
- PrekeyHandout.KeysApi.GetPrekeyBundle: an inactive user has no active devices; the rest of the bundle is the device's
  stored keys, unchanged.
- RefreshRotation.AuthService.RefreshAccessToken: access tokens, addresses and user agents; token hashes are the tokens. A
  call that would wait for the lock of another request is made when the lock is free.
- RefreshRotation.AuthService.Logout: likewise for the lock.
- RefreshRotation.AuthService.LogoutAll: one request alone; the steps cover what others do meanwhile.
- KeyAgreement.DecryptsWhatWasEncrypted: texts are those UTF-8 encodes and decodes to themselves; signatures on bundles,
  key generation and later ratchet steps, which the client does not take, are left out.
