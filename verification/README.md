# hodlchain in Dafny

hodlchain is a chain whose ledger is replicated by full nodes and checked by light
wallets that hold one account, one Merkle path and the set of spent mint nullifiers.
A sequencer produces blocks and posts attestations on L1; each attestation spends the
anchor output of the one before it. This project models that pipeline from the hashed
byte strings up to whole runs of sequencer, nodes and wallets, and proves that each
layer refines the one below.

`dafny verify dfyconfig.toml` checks everything.

## Reading the model

| layer | modules |
|---|---|
| bytes and hashing | `Primitives`, `Types`, `Crypto`, `Messages`, `Layout` (every hashed layout, field by field) |
| sparse Merkle tree | `SparseMerkle` (roots, proofs), `SparseUpdate` (multi-leaf update, observer refresh) |
| ledger | `Ledger`, `Supply`, `MintProof`, `Witness`, `Verdicts` (what each check accepts, in plain terms) |
| block verification | `Node` (full), `LightClient` (one block from proofs), `Walk` (batches, cold-start checks), `Events` (what a walk tells the wallet) |
| L1 and its followers | `L1Chain`, `Follower`, `Agreement` (accepted runs), `ColdStart`, `Clients` (any two of them) |
| sequencer | `Sequencer`, `Inclusion` (what gets into a block), `PostHistory` (all attestations, final ones included) |
| the whole system | `LockStep` (sequencer and follower), `Network` (with L1 between them), `WalletNetwork` (and wallets), `Backing` (supply on any client's chain) |
| wallet history | `History` |

*Functions and methods.* What the program computes by recursion is a function. What it
does by changing state is a method or a class (`LedgerState`, `FollowerNode`,
`Producer`, `WalletHistory`, the loops of `Walk`, `SparseUpdate`, `L1Chain`), whose
`ensures` equates the result or the new state with a specification function; the
properties are proved about those functions. `Root` of an account map is the plain
meaning of the tree; no fast form of the program computes it.

*Collisions.* SHA-256 is an arbitrary function of byte strings to 32 bytes. A binding
result says that its conclusion holds, or that two different byte strings among an
explicit finite set have one digest. That set (`RootMsgs`, `ProofMsgs`, `BlockMsgs`,
`WalkMsgs`, `RunMsgs`, ...) holds only messages that the computations at hand hash; over
all byte strings a collision always exists and the statement would be empty. What needs
no such clause carries none: completeness, the root equation of the sparse update, the
refresh of a true proof, lock-step.

*Cryptography.* Schnorr verification, the taproot script of a mint, the attestation
script parser and the mint function are constants without a value, so all theorems hold
for any of them. The only thing required is that the mint function credits at most the
locked value.

*Integers.* `u32` and `u64` are bounded. Saturating operations saturate; the nonce and
the block height, which the release build increments without overflow checks, wrap.

## Main results

- A light client that accepts a block, with any witness, stands for the ledger a full
  node reaches (`LightClient.VerifyBlockSound`, over any number of batches
  `Walk.WalkSound`); with the witness the node builds it accepts exactly what the node
  accepts (`LightClient.HonestWitnessAccepted`, `Walk.HonestWalkAccepted`).
- The sparse update and the observer refresh compute what editing the whole account map
  would give (`SparseUpdate.ApplyUpdatesSound`, `RefreshSound`), and roots and proofs are
  commitments (`SparseMerkle.RootCommits`, `ProofBinding`, `VerifyingProofsAgree`).
- Everything hashed is uniquely decodable, across message kinds (`Messages.EncodeInjective`).
- Supply: each L1 outpoint is credited at most once, supply is backed by locked value, and
  balances plus burned fees equal the minted total (`MintProof.SupplyBackedByL1`,
  `Supply.Conservation`); when exactly a run clips, and when its books balance, is
  `Supply.NeverClipsIff` and `Supply.BooksBalanceIff`. All of it holds of the ledger any
  node or wallet has come to (`Backing.ClientBacked`).
- Any two clients, nodes or wallets, each with its own servers and views and with failed
  ticks and sessions behind it, agree on the history behind any attestation both passed
  (`Clients.AnyTwoClientsAgree`). A node and a wallet over one L1 meet, also from a cold
  start (`Clients.NodeAndWalletMeet`, `ColdStart.ColdStartMeetsNode`); scanning L1 and
  following spends visit the same links (`L1Chain.TraversalsAgree`).
- Over every run with L1 in between, and with any views of L1, the follower holds the
  sequencer's ledger, and its ticks complete exactly when its view verifies the mints that
  are due (`Network.NetworkHolds`; without L1, over every interleaving,
  `LockStep.LockStepHolds`). Wallets keep up with it (`WalletNetwork.WalletFollowsNetwork`).
  The attestations that stand are one chain from the first
  anchor to the stored one (`PostHistory.StandingInvariant`).
- What gets in: a funded sender's transfers all apply (`Verdicts.FundedSenderSends`), a block
  contains exactly what was submitted and applies in order (`Inclusion.ProducedBody`), and the
  events of a walk account exactly for the balance shown (`Events.WalkShows`).
- History projection moves records forward only, and is idempotent exactly when no event
  can show the clock (`History.RefreshMovesForward`, `History.ProjectIdempotentIff`).

## Where the program does less than it says

The model follows the code. Each of these points has a lemma with a failing input and
one with the exact condition.

- `bootstrap` (crates/hodl-wallet/src/verify.rs:174-212) does not compare the address
  inside the served proof with the wallet's own, nor the length of the served nullifiers
  (`Walk.BootstrapAcceptsOtherProof`, `BootstrapAcceptsPaddedNullifiers`). The head stands
  for the attested ledger exactly when both hold (`Walk.BootstrapExact`).
- `process_advance` (crates/hodl-node/src/follower.rs:104-111) skips a known attestation
  without moving the anchor, so the loop that called it finds the same advance again and
  never ends (`Follower.RepeatedAttestationSticks`). When that happens is
  `Follower.TickStuckIff`; when a tick completes is `TickCompletes`.
- `monitor_pending` (crates/hodl-sequencer/src/producer.rs:310-395) remembers only the last
  missing attestation. If the one before it is missing too, the anchor becomes an output
  that does not exist, and stays there (`Sequencer.TwoMissingKeepDeadAnchor`,
  `DeadAnchorIff`, `DeadAnchorForever`). If an older one is missing and a newer one is not,
  the pending entries are no longer chained (`MissingInTheMiddleBreaksChain`,
  `MonitorKeepsChainIff`). The history of posts as a whole is kept exactly for orderly
  reports (`PostHistory.MonitorKeepsStandingIff`).
- A failed attestation "will retry next L1 tick" (crates/hodl-sequencer/src/producer.rs:291),
  and the stored L1 cursor is "informational" (producer.rs:190-194). Before the first
  success the cursor decides whether a post is due, and every production overwrites it, so
  a first post that fails, or a block tick that sees the new L1 block first, silences that
  L1 block (`Sequencer.FirstPostForgotten`, `FailedPostRetriedIff`, `ProductionKeepsDueIff`).
- Saturating arithmetic conserves atoms only below a bound: `Supply.ConservationFailsAtBound`
  exceeds it from genesis, `TransferConservesIff` and `MintConservesIff` say exactly which
  transactions do.
- The comment on `total_minted_atoms` (crates/hodl-core/src/state.rs:36-41) calls it the
  total supply. Without a fee address fees are burned (`Supply.BurnedFeeLowersSupply`,
  `CounterIsSupplyIff`).
- A transaction hash leaves out the claimed block height of a mint
  (crates/hodl-core/src/tx.rs:168-183; `Messages.ClaimedHeightInvisible`, `TxHashBinds`,
  `TxsRootBinds`). So agreement on bodies is up to that field.
- A node compares `txs_root` with the body only for the last block of a batch
  (crates/hodl-node/src/follower.rs:158-160), a wallet for every block
  (`LightClient.BodyRootUnchecked`); that is their only difference
  (`LightClient.ClientMirrorsNode`). Clients thus agree on the body of an attested block
  (`Agreement.SameAttestationSameBody`) and, inside a batch, on headers and ledgers.
- A wallet's walk fails if the last anchor is spent by an unconfirmed transaction
  (crates/hodl-wallet/src/esplora.rs:243-245), where a scanning node does not notice
  (`L1Chain.UnconfirmedTailFails`, `TraversalsAgree`).
- `project_events` promises idempotence (crates/hodl-wallet/src/ops.rs:47-50); a zero block
  time can break it (`History.ZeroBlockTimeNotIdempotent`, `ProjectIdempotentIff`).

Apart from these, docs/design.md describes retargeting and an older state root; the code
has neither.

## Model

| member | source | states |
|---|---|---|
| Messages.InOrder | crates/hodl-core/src/state.rs:201-208 | iterating the nullifier set lists every element of it and nothing else |
| Messages.InOrderAscends | crates/hodl-core/src/state.rs:201-208 | it lists them in strictly ascending byte order, so each one once |
| Messages.HashIsSha256 | crates/hodl-core/src/block.rs:94-134 | every digest in the model is SHA-256 of the message's byte layout |
| Messages.KindOfTag | crates/hodl-core/src/block.rs:76-95 | the domain tag alone tells the kinds of hashed message apart (mint and transfer transactions share one and differ in the next byte) |
| Messages.HeaderInjective | crates/hodl-core/src/block.rs:94-134 | the header preimage with its three flagged optional fields determines every header field |
| Messages.StateInjective | crates/hodl-core/src/state.rs:234-249 | the state-root preimage determines accounts root, nullifiers hash and fee address |
| Messages.NullifiersInjective | crates/hodl-core/src/state.rs:201-208 | the unseparated sorted concatenation determines the set, if every nullifier has 72 characters |
| Messages.NullifierSplitAmbiguous | crates/hodl-core/src/state.rs:201-208 | without the 72-character premise two different sets have one preimage |
| Messages.PaddingInvisible | crates/hodl-core/src/state.rs:201-208 | an empty string in the set leaves no trace in the preimage |
| Messages.WitnessBytesInjective | crates/hodl-core/src/tx.rs:168-183 | the canonical mint-witness bytes determine outpoint, key, lock duration and signature |
| Messages.MintTxInjective | crates/hodl-core/src/tx.rs:132-160 | the length-prefixed mint preimage determines event and witness, for nullifiers shorter than 2^32 |
| Messages.EncodeInjective | crates/hodl-core/src/tx.rs:110-183 | unique decodability across all message kinds: one byte string, one message |
| Messages.TxHashBinds | crates/hodl-core/src/tx.rs:132-183 | equal transaction hashes if and only if equal transactions up to the claimed block height of a mint, which the witness bytes leave out; or a collision |
| Messages.ClaimedHeightInvisible | crates/hodl-core/src/tx.rs:168-183 | two claims that differ in the claimed height alone have one hash |
| Messages.TxsRootBinds | crates/hodl-core/src/block.rs:140-147 | equal body roots if and only if equal length and pairwise equal transactions in the same sense; or a collision |
| Messages.HeaderHashBinds | crates/hodl-core/src/block.rs:94-134 | equal block hashes mean equal headers; or a collision |
| Messages.ComputeTxsRoot | crates/hodl-core/src/block.rs:140-147 | the hasher loop digests the tag followed by the transaction hashes in order |
| Messages.MintSighashBinds | crates/hodl-core/src/proof.rs:165-181 | the digest a claimant signs determines outpoint, height and destination; or a collision |
| Messages.TransferSighashBinds | crates/hodl-core/src/tx.rs:101-119 | the digest a sender signs determines the whole transfer body; or a collision |
| Primitives.BEReadsBack | crates/hodl-core/src/block.rs:96-102 | a number written most significant byte first reads back as that number |
| Primitives.LEReadsBack | crates/hodl-core/src/proof.rs:184-189 | a number written least significant byte first reads back as that number |
| Primitives.HexReadsBack | crates/hodl-core/src/proof.rs:284-292 | hexadecimal text reads back as its bytes, digits 0-9 and a-f, high digit first |
| Layout.HeaderLayout | crates/hodl-core/src/block.rs:76-134 | the documented byte layout of a header, field by field, with its flagged tail |
| Layout.StateLayout | crates/hodl-core/src/state.rs:234-249 | the layout of the state-root preimage |
| Layout.LeafLayout | crates/hodl-core/src/smt.rs:35-71 | the layouts of populated and empty leaves |
| Layout.BranchLayout | crates/hodl-core/src/smt.rs:55-61 | the layout of an inner node, left before right |
| Layout.TransferLayout | crates/hodl-core/src/tx.rs:101-119 | the layout of the transfer digest |
| Layout.MintClaimLayout | crates/hodl-core/src/proof.rs:165-181 | the layout of the claim digest, the output index alone least significant byte first |
| Layout.TransferTxLayout | crates/hodl-core/src/tx.rs:154-158 | the layout of a transfer transaction |
| Layout.MintTxLayout | crates/hodl-core/src/tx.rs:132-183 | the layout of a mint transaction with its length prefixes and witness |
| Layout.ListLayouts | crates/hodl-core/src/state.rs:201-208 | nullifiers and body hashes are concatenated without separators after their tags |
| SparseMerkle.BitsDetermineAddress | crates/hodl-core/src/smt.rs:79-84 | addresses are equal if and only if all 256 bits read by `bit_at` are |
| SparseMerkle.BitAtMeans | crates/hodl-core/src/smt.rs:78-84 | bit `d` is binary digit `255 - d` of the address: bit 0 the most significant |
| SparseMerkle.EmptySubtreeHashes | crates/hodl-core/src/smt.rs:35-49 | the table holds at index `d` the hash of an empty subtree of height `d` |
| SparseMerkle.SubRootBranches | crates/hodl-core/src/smt.rs:158-177 | the empty-subtree shortcut gives the same hash as descending into both halves, at every depth |
| SparseMerkle.SubRootBinds | crates/hodl-core/src/smt.rs:158-177 | equal node hashes at any depth mean equal account maps below that node; or a collision |
| SparseMerkle.RootCommits | crates/hodl-core/src/smt.rs:149-177 | the root is a commitment: one root, one account map, or a collision among the messages hashed for the two roots |
| SparseMerkle.ComputeRootMeans | crates/hodl-core/src/smt.rs:149-177 | `compute_root` of any list that holds the accounts of a map is the root of the map, whatever the order |
| SparseMerkle.EntriesOf | crates/hodl-core/src/state.rs:157-161 | the account list handed to the tree lists exactly the account map |
| SparseMerkle.AccountsRoot | crates/hodl-core/src/state.rs:157-161 | the ledger's accounts root is the root of its account map |
| SparseMerkle.Verify | crates/hodl-core/src/smt.rs:131-145 | the loop, with its length check, decides whether the path hashes to the expected root |
| SparseMerkle.TruePathHashes | crates/hodl-core/src/smt.rs:131-145 | a path of true siblings hashes to the node it starts from, with no assumption on the hash |
| SparseMerkle.PathBinds | crates/hodl-core/src/smt.rs:131-145 | a path that hashes to a node has the true leaf and true siblings below it; or a collision |
| SparseMerkle.ProofBinding | crates/hodl-core/src/smt.rs:131-145 | a proof verifies against the root of a map exactly when leaf and all siblings are true of the map; or a collision |
| SparseMerkle.VerifyingProofsAgree | crates/hodl-core/src/smt.rs:131-145 | two proofs for one address under one root have the same leaf and the same whole path; or a collision |
| SparseMerkle.GatherSiblings | crates/hodl-core/src/smt.rs:199-228 | the recursion appends one sibling a level to the vector it is given, deepest first, and returns the root of the list it stands at |
| SparseMerkle.GatherProof | crates/hodl-core/src/smt.rs:180-197 | leaf and gathered siblings make up the computed proof |
| SparseMerkle.ComputeProofTrue | crates/hodl-core/src/smt.rs:180-228 | a computed proof is true of the map, verifies against `compute_root` and shows the account, or its absence |
| SparseMerkle.ProofOf | crates/hodl-core/src/state.rs:165-169 | the ledger's inclusion proof for any address is true of its account map |
| SparseUpdate.EditedLeaves | crates/hodl-core/src/smt.rs:238-242 | what a list of updates means: listed addresses hold their post state (overwritten, inserted or removed), all others are unchanged |
| SparseUpdate.EditedSide | crates/hodl-core/src/smt.rs:291-300 | editing a map and descending into one half commute |
| SparseUpdate.PostRootMeans | crates/hodl-core/src/smt.rs:291-315 | from true proofs the recursion computes exactly the root of the edited map, at every depth and with no assumption on the hash |
| SparseUpdate.ChildRootMeans | crates/hodl-core/src/smt.rs:301-313 | where no update goes into one child, the first proof through the other child carries that child's unchanged hash |
| SparseUpdate.VerifiedUpdatesTrue | crates/hodl-core/src/smt.rs:280-286 | pre-state proofs of any origin that verify are true of the map; or a collision |
| SparseUpdate.ApplyUpdatesSound | crates/hodl-core/src/smt.rs:265-315 | whenever `apply_updates` returns a root, it is the root of the edited map; or a collision |
| SparseUpdate.ApplyUpdatesComplete | crates/hodl-core/src/smt.rs:265-315 | with true proofs of distinct addresses it does return that root, unconditionally |
| SparseUpdate.SiblingRefreshed | crates/hodl-core/src/smt.rs:364-399 | at each depth the observer's new sibling is the other half of the edited map |
| SparseUpdate.RefreshTrue | crates/hodl-core/src/smt.rs:358-405 | a true observer proof becomes the true proof of the edited map, for observers touched, untouched or absent |
| SparseUpdate.RefreshSound | crates/hodl-core/src/smt.rs:327-406 | when both operations succeed on the same updates, the refreshed proof verifies against the new root and shows the true post state; or a collision |
| SparseUpdate.ValidateUpdates | crates/hodl-core/src/smt.rs:269-286 | the duplicate scan comes first and reports the first repeated address, then the first proof that fails |
| SparseUpdate.ComputeUpdatedRoot | crates/hodl-core/src/smt.rs:265-289 | `apply_updates` with its errors in the code's order |
| SparseUpdate.OffPathStays | crates/hodl-core/src/smt.rs:384-388 | once no update shares the observer's prefix none does deeper down, which justifies the early `break` |
| SparseUpdate.ComputeRefreshedProof | crates/hodl-core/src/smt.rs:327-406 | the loop that overwrites siblings and breaks early leaves every sibling as the level-by-level definition says |
| Verdicts.UpdateVerdict | crates/hodl-core/src/smt.rs:265-356 | when the root update and the refresh succeed, and that they fail alike; the root update refuses an empty list, the refresh returns the observer's own proof |
| Verdicts.DuplicateIsFirst | crates/hodl-core/src/smt.rs:271-279 | the address reported is that of the first update some later one repeats |
| Verdicts.InvalidIsFirst | crates/hodl-core/src/smt.rs:280-286 | the address reported is that of the first proof that fails |
| Ledger.FeeFor | crates/hodl-core/src/state.rs:124-129 | one basis point of the amount, rounded down, and never below the floor of 100 |
| Ledger.StateRootBinds | crates/hodl-core/src/state.rs:229-250 | the state root determines accounts, nullifiers and fee address; or a collision |
| Verdicts.TransferVerdict | crates/hodl-core/src/state.rs:105-152 | a transfer is accepted if and only if it moves something to somebody else, carries the sender's current nonce, is signed over its whole body and covered; and which error each other case gives |
| Verdicts.FundedSenderSends | crates/hodl-core/src/state.rs:105-152 | on any ledger, consecutive well-formed signed transfers of one sender all apply if its balance covers their amounts and fees |
| Verdicts.MintVerdict | crates/hodl-core/src/state.rs:93-103 | a mint event is accepted if and only if its amount is positive and its nullifier fresh; and which error each other case gives |
| Ledger.ApplyFrame | crates/hodl-core/src/state.rs:77-152 | a transaction leaves every account outside its touched set, and the fee address, alone |
| Ledger.ReplayFrame | crates/hodl-core/src/witness.rs:61-82 | a whole block changes no account outside `touched_addresses` |
| Ledger.ApplyLocal | crates/hodl-core/src/state.rs:77-152 | success, error and effect of a transaction depend only on touched accounts, nullifiers and fee address |
| Ledger.ReplayLocal | crates/hodl-core/src/state.rs:77-152 | the same for whole blocks on any two states that agree there |
| Ledger.ReplayConcat | crates/hodl-core/src/state.rs:77-86 | replaying two lists in a row is replaying their concatenation, errors included |
| Ledger.DroppingIsReplay | crates/hodl-sequencer/src/producer.rs:122-148 | dropping candidates that fail to apply leaves exactly the state of a clean replay of those kept |
| Ledger.LedgerState.ApplyMintEntry | crates/hodl-core/src/state.rs:93-103 | the mint fields are updated as specified, and nothing is on error |
| Ledger.LedgerState.ApplySignedTransfer | crates/hodl-core/src/state.rs:105-152 | checks in the code's order; sender, recipient and fee account updated one after the other, also when they coincide |
| Ledger.LedgerState.ApplyTx | crates/hodl-core/src/state.rs:77-86 | the state changes only on success |
| Ledger.LedgerState.ApplyAll | crates/hodl-node/src/follower.rs:182-186 | applies a block body in order and stops at the first error |
| Ledger.LedgerState.ApplyOrDrop | crates/hodl-sequencer/src/producer.rs:122-148 | the block body is the candidates that applied, in order, and the ledger is the one they lead to |
| Supply.TransferEffect | crates/hodl-core/src/state.rs:105-152 | an accepted, unclipped transfer read account by account: the sender pays amount and fee and its nonce advances, the recipient gains the amount, the collector the fee, whichever roles coincide; nothing else changes |
| Supply.MintEffect | crates/hodl-core/src/state.rs:93-103 | an accepted, unclipped mint credits only its destination, consumes only its own fresh nullifier and advances the counter by the amount |
| Supply.TransferConservesIff | crates/hodl-core/src/state.rs:105-152 | on any conserved ledger an accepted transfer keeps it conserved if and only if amount plus fee is below 2^64 or the recipient is the collector, and clips nothing if and only if the former |
| Supply.MintConservesIff | crates/hodl-core/src/state.rs:93-103 | likewise an accepted mint if and only if the counter stays below 2^64 or the destination already holds every minted atom |
| Supply.ApplyConservesIff | crates/hodl-core/src/state.rs:77-152 | the exact condition for any transaction |
| Supply.BooksBalanceIff | crates/hodl-core/src/state.rs:77-152 | a run is conserved at every step if and only if each transaction meets that condition |
| Supply.NeverClipsIff | crates/hodl-core/src/state.rs:77-152 | a run never clips if and only if its mints sum below 2^64 and each amount plus fee is below 2^64, a condition on the transaction list alone; the counter is then exact and the run conserved |
| Supply.ApplyConserves | crates/hodl-core/src/state.rs:77-152 | each accepted transaction keeps balances plus burned fees equal to `total_minted_atoms` |
| Supply.ReplayConserves | crates/hodl-core/src/state.rs:77-152 | the same along any run from any conserved state |
| Supply.Conservation | crates/hodl-core/src/state.rs:36-47 | from genesis, while the mints sum below 2^64-1: nothing ever clips, the counter is exact, balances plus burned fees equal it, and nothing is burned when a fee address is set |
| Supply.CounterIsSupplyIff | crates/hodl-core/src/state.rs:36-41 | below the bound the counter is the total supply if and only if there is a fee address or there has been no transfer |
| Supply.ConservationFailsAtBound | crates/hodl-core/src/state.rs:124-145 | an input that fails, replayed from genesis: a mint of 2^64-1 atoms and a transfer of all of them, whose fee comes out of nothing |
| Supply.BurnedFeeLowersSupply | crates/hodl-core/src/state.rs:137-150 | an input on which the counter is not the supply: 1000 minted, 500 sent without a fee address, 900 left |
| Supply.NonceCountsTransfers | crates/hodl-core/src/state.rs:111-134 | the nonce of an address is the number of transfers it sent, modulo 2^64 |
| Supply.TransferPlace | crates/hodl-core/src/state.rs:112-115 | a transfer takes effect exactly at the place its nonce names |
| Supply.NoTransferReplayed | crates/hodl-core/src/state.rs:112-115 | no signed transfer body takes effect twice in a run unless its sender went through all 2^64 nonces in between |
| Supply.EmptyLeafMeansZero | crates/hodl-wallet/src/ops.rs:905-931 | no stored account is ever (0, 0), so an absent leaf means exactly zero balance and zero nonce |
| Crypto.MintFn | crates/hodl-core/src/consensus.rs:122-137 | the one property of the mint function relied upon: it credits at most the locked value |
| MintProof.NullifierInjective | crates/hodl-core/src/proof.rs:184-189 | nullifier texts are equal if and only if the outpoints are |
| MintProof.VerifyMints | crates/hodl-node/src/follower.rs:163-178 | a block's mints pass exactly if every single one does |
| MintProof.CheckMints | crates/hodl-node/src/follower.rs:163-178 | the loop over the block reports the first mint that fails |
| MintProof.VerifiedEvent | crates/hodl-core/src/proof.rs:197-340 | an accepted mint carries its outpoint's nullifier and true value and credits between 1 and that value; the output pays the claimant's script, the claim lies in the active lock window and not ahead of L1, and the claimant signed it for this destination |
| Verdicts.ClaimVerdict | crates/hodl-core/src/proof.rs:197-298 | a claim is accepted if and only if its output is there, confirmed once, locked for 1 to 65535 blocks under the claimant's key, claimed in time, signed for this destination and worth something; it earns the mint function of value and lock duration |
| Verdicts.ClaimErrors | crates/hodl-core/src/proof.rs:197-282 | the checks in the order they are made, each with its error |
| Verdicts.EntryVerdict | crates/hodl-core/src/proof.rs:310-340 | an entry is accepted if and only if its claim earns exactly the event it declares |
| Verdicts.ClaimBoundToDestination | crates/hodl-core/src/proof.rs:266-276 | a proof accepted for two destinations carries a signature valid for two different digests; or a collision |
| MintProof.ReplayNullifiers | crates/hodl-core/src/state.rs:96-99 | a run consumes exactly the nullifiers of its mints, on top of those it began with |
| MintProof.OutpointCreditedOnce | crates/hodl-core/src/state.rs:96-99 | over any run of verified mints no L1 outpoint is credited twice |
| MintProof.MintedBelowWorth | crates/hodl-core/src/proof.rs:310-340 | total minted is at most the on-chain value of the distinct outpoints consumed |
| MintProof.SupplyBackedByL1 | crates/hodl-core/src/state.rs:36-47 | with less than 2^64-1 locked on L1 in all, supply is bounded by locked value and conservation holds with no further premise |
| MintProof.VerifiedNullifiersProper | crates/hodl-core/src/proof.rs:184-189 | all nullifiers of a verified chain have 72 characters, the premise of the nullifier commitment |
| Witness.TouchedAddresses | crates/hodl-core/src/witness.rs:61-82 | the loop with its transfer flag collects exactly the accounts the transactions touch, transaction by transaction |
| Witness.TouchedMeans | crates/hodl-core/src/witness.rs:61-82 | an account is touched if and only if some transaction names it, or it collects fees and there is a transfer |
| Witness.BuildCovers | crates/hodl-core/src/witness.rs:87-99 | a built witness has one proof for each touched address, none for any other, and every proof is true |
| LightClient.SparseAgrees | crates/hodl-wallet/src/verify.rs:388-399 | the partial ledger filled from true proofs looks like the full one on everything the block touches |
| LightClient.UpdatesReachFullState | crates/hodl-wallet/src/verify.rs:459-475 | the updates read off the sparse replay turn the full account map into the one the full replay ends with |
| LightClient.ConcludeMatches | crates/hodl-wallet/src/verify.rs:458-535 | the closing checks compute the full node's state root, and pass exactly if it is the header's |
| LightClient.ClientMirrorsNode | crates/hodl-wallet/src/verify.rs:292-535 | commuting square: with true proofs the client accepts exactly what a full node at the same head accepts and whose body matches `txs_root`, and then represents its new ledger |
| LightClient.VerifyBlockSound | crates/hodl-wallet/src/verify.rs:292-535 | soundness for any supplied witness: if the client accepts, every transaction applies on the full ledger, the result has the header's state root and the new head represents it; or a collision |
| LightClient.BodyRootUnchecked | crates/hodl-node/src/follower.rs:158-160 | a block whose body root is wrong is accepted by a node inside a batch, under no attestation at the end of one, and by a wallet nowhere |
| Node.WrongBodyRefused | crates/hodl-node/src/follower.rs:260-267 | on any node, a block accepted at the end of a batch has the body its `txs_root` commits to |
| Verdicts.BlockVerdict | crates/hodl-node/src/follower.rs:147-270 | a node accepts a block if and only if it is the one asked for, any attestation commits to its header and body, its mints verify, its body replays to its state root, and it continues the head; and what the node then holds |
| LightClient.HonestWitnessAccepted | crates/hodl-wallet/src/verify.rs:292-535 | completeness: with the witness built from the prior ledger the client accepts exactly what the node accepts, with no hash assumption |
| Walk.FillSparse | crates/hodl-wallet/src/verify.rs:388-399 | the loop fills the partial ledger from the occupied leaves, later proofs winning, and takes nullifiers, counter and fee address from the head |
| Walk.CollectEvents | crates/hodl-wallet/src/verify.rs:407-456 | the loop lists the events of the block's transactions in block order |
| Events.BlockTold | crates/hodl-wallet/src/verify.rs:407-456 | an event is listed if and only if some transaction of the block names the wallet in that role, with the other party, amount and identity of that transaction |
| Events.BlockAccounts | crates/hodl-wallet/src/verify.rs:400-456 | on a block that clips nothing the own balance changes by what the events say came in, less what went out with its fees, plus the fees collected if the wallet collects them; the nonce by the transfers sent |
| Walk.VerifyOneBlock | crates/hodl-wallet/src/verify.rs:292-535 | the imperative block check equals its specification, and reports the events of accepted blocks |
| Walk.FinishBlock | crates/hodl-wallet/src/verify.rs:458-535 | root update, state-root check, own-proof refresh and its check, in that order |
| Walk.WalkForward | crates/hodl-wallet/src/verify.rs:240-281 | the two loops verify every block of every batch, count them, collect exactly the events of the blocks passed, and skip attestations already known |
| Events.WalkTold | crates/hodl-wallet/src/verify.rs:240-281 | the same membership over all blocks of a walk |
| Events.FollowReplays | crates/hodl-node/src/follower.rs:100-141 | following attestations replays the bodies of the blocks passed, none missing |
| Events.WalkShows | crates/hodl-wallet/src/verify.rs:240-281 | the balance and nonce a wallet shows after a walk are those shown before, changed as its events say, on blocks that clip nothing; or a collision |
| Events.WalkMarks | crates/hodl-wallet/src/verify.rs:257-279 | the head ends at the last step's anchor and, if that step went further, at its L1 height |
| Walk.WalkRangeSound | crates/hodl-wallet/src/verify.rs:266-279 | one batch, of which only the last block is checked against L1, keeps the client on the full node's ledger |
| Walk.WalkSound | crates/hodl-wallet/src/verify.rs:240-281 | soundness over any number of batches: a full node following the same attestations succeeds too and the client represents the ledger it reaches; or a collision |
| Walk.HonestRangeAccepted | crates/hodl-wallet/src/verify.rs:266-279 | with the witnesses a node builds, the client completes a batch exactly when the node does |
| Walk.HonestWalkAccepted | crates/hodl-wallet/src/verify.rs:240-281 | completeness over any number of batches, with no hash assumption |
| Walk.BootstrapExact | crates/hodl-wallet/src/verify.rs:107-228 | after the cold-start checks pass, the head represents the attested ledger if and only if the served path also verifies for the wallet's own address and the served nullifiers have 72 characters; or a collision |
| Walk.BootstrapVerdict | crates/hodl-wallet/src/verify.rs:145-228 | cold start succeeds if and only if each of its checks passes; the head then holds L1's place and the node's state, and shows the balance and nonce the node reported |
| Walk.HonestAnswerAccepted | crates/hodl-wallet/src/verify.rs:107-228 | an honest answer about any ledger and address passes every check, and the head represents that ledger |
| Walk.BootstrapAcceptsOtherProof | crates/hodl-wallet/src/verify.rs:174-196 | the checks pass with a proof for another account: the address inside the proof is not compared |
| Walk.BootstrapAcceptsPaddedNullifiers | crates/hodl-wallet/src/verify.rs:198-212 | the checks pass with an empty string added to the nullifier list |
| Walk.ShownBalanceTrue | crates/hodl-wallet/src/verify.rs:590-602 | the balance and nonce shown from a representing head are those in the ledger |
| Agreement.GenesisBlockAccepted | crates/hodl-core/src/block.rs:163-187 | a genesis block built for any parameters is accepted and starts the empty ledger with its fee address and anchor |
| Agreement.GenesisFixesFee | crates/hodl-node/src/main.rs:144-158 | accepted genesis headers with one state root start from the same fee address; or a collision |
| Agreement.AgreeBelow | crates/hodl-node/src/follower.rs:188-203 | equal block hashes at one height force equal headers and equal committed state at every height below |
| Agreement.SameAttestationSameHistory | crates/hodl-node/src/follower.rs:119-203 | two clients that checked a block against one attestation hold the same headers, accounts, nullifiers and fee address at every height up to it, although only the last block of a batch is pinned; or a collision |
| Agreement.SameAttestationSameBody | crates/hodl-node/src/follower.rs:237-270 | and the same body for the attested block itself, up to claimed heights; or a collision |
| Agreement.RangeExtendsRun | crates/hodl-node/src/follower.rs:119-123 | whatever comes of a batch, the blocks that stay extend the accepted run; a batch that succeeds extends it up to the attested block |
| Agreement.FollowExtendsRun | crates/hodl-node/src/follower.rs:100-141 | following attestations extends the run as far as it gets, checked only against those attestations, and ends at an attested block if it gets through |
| Agreement.SessionsExtendRun | crates/hodl-wallet/src/ops.rs:1047-1060 | over any number of sessions, failed ones included, with any servers and views, a wallet mirrors the tip of one growing accepted run; or a collision |
| L1Chain.ScanBlockForAdvance | crates/hodl-node/src/bitcoind.rs:140-181 | the search loop with its early exits finds the first spender of the anchor, or fails on one that is no attestation |
| L1Chain.LinkVerdict | crates/hodl-node/src/bitcoind.rs:158-177 | a spend of the anchor is a link if and only if it has two outputs and the first attests; its second output is the next anchor |
| L1Chain.WalkAttestationChain | crates/hodl-wallet/src/esplora.rs:208-271 | the loop terminates and returns the whole chain of links from the anchor, or the first error |
| L1Chain.TraversalsAgree | crates/hodl-wallet/src/esplora.rs:230-270 | scanning block by block and following spends visit the same links in the same order, with the same errors; they differ only if the last anchor is spent by an unconfirmed transaction, on which the wallet fails |
| L1Chain.UnconfirmedTailFails | crates/hodl-wallet/src/esplora.rs:243-245 | an input on which they differ: the anchor's only spender is unconfirmed |
| L1Chain.UnconfirmedAnchorKnown | crates/hodl-wallet/src/esplora.rs:110-128 | an anchor whose transaction is not confirmed yet is known to the walk |
| Follower.TickCompletes | crates/hodl-node/src/follower.rs:58-141 | a tick completes if and only if the scan meets only well-formed links, their heights ascend and every batch applies; it has then followed the whole scanned chain |
| Follower.TickStuckIff | crates/hodl-node/src/follower.rs:71-117 | a tick never ends if and only if the scan, after links processed in full, meets one whose height is at most that of the head they led to |
| Follower.RepeatedAttestationSticks | crates/hodl-node/src/follower.rs:104-111 | an input that does it: on any node, the attestation of an empty next block, posted twice |
| Follower.StuckIsForever | crates/hodl-node/src/follower.rs:77-96 | in the state so reached, scanning finds and skips the same advance again |
| Follower.MoveConsistent | crates/hodl-node/src/follower.rs:71-117 | each scan keeps the anchor record true of L1 and leading to the stored anchor |
| Follower.TickFromConsistent | crates/hodl-node/src/follower.rs:58-141 | the same for a whole tick, however it ends |
| Follower.RunConsistent | crates/hodl-node/src/follower.rs:49-141 | over every run of ticks on a growing L1 the recorded spends lead from the first anchor to the stored one |
| Follower.RecordEndsAtAnchor | crates/hodl-node/src/follower.rs:126-132 | after a completed scan, following the recorded spends from anchor_0 ends at the stored anchor |
| Follower.FollowerNode.constructor | crates/hodl-node/src/follower.rs:40-46 | a node object holds the state it resumes from, with a ledger of its own |
| Follower.FollowerNode.ApplyOneBlock | crates/hodl-node/src/follower.rs:147-231 | the block is replayed on a copy; ledger and head change together and only on success |
| Follower.FollowerNode.ProcessOneAdvance | crates/hodl-node/src/follower.rs:100-141 | a failed batch keeps the blocks already applied but neither anchor nor record; a full one moves both |
| Follower.FollowerNode.RunTick | crates/hodl-node/src/follower.rs:58-98 | the nested loops over heights and advances compute the specified tick, cursor included |
| ColdStart.StartWallet | crates/hodl-wallet/src/verify.rs:107-228 | anchor from genesis, chain from L1, then the checks of the served state, in that order |
| ColdStart.StartVerdict | crates/hodl-wallet/src/verify.rs:107-228 | what the attested head is, with and without attestations, and the error of each failing stage |
| ColdStart.HonestColdStart | crates/hodl-wallet/src/verify.rs:107-228 | an honest answer starts the wallet where the node stands |
| ColdStart.FollowEndsAt | crates/hodl-node/src/follower.rs:100-141 | following ascending attestations ends at the block hash, height and state root the last one names |
| ColdStart.FollowedHeadAttested | crates/hodl-wallet/src/verify.rs:112-143 | the head a wallet reads off L1 is where a node that followed from genesis stands |
| ColdStart.ColdStartMeetsNode | crates/hodl-wallet/src/verify.rs:107-228 | a wallet whose cold start succeeds, from a genesis header with the node's anchor, is at the node's height and anchor; at its block hash if and only if anything is attested or the headers have one hash; and it represents the node's ledger if and only if the two unchecked conditions hold; or a collision |
| Clients.TickExtendsRun | crates/hodl-node/src/follower.rs:58-141 | whatever a tick meets and however it ends, the node is at the tip of an accepted run that extends the one it was at |
| Clients.TicksExtendRun | crates/hodl-node/src/follower.rs:49-141 | the same over any run of ticks, failed ones included, with any servers and views |
| Clients.AnyTwoClientsAgree | crates/hodl-wallet/src/verify.rs:240-350 | any two clients, nodes or wallets, each with its own past, servers, views and genesis: same headers and committed ledgers at every height up to any block both checked against one attestation, or any block hash they share; or a collision |
| Clients.WalletsAgree | crates/hodl-wallet/src/verify.rs:240-350 | two wallets at one height after any sessions hold the same block hash, accounts root, nullifiers and fee address; or a collision |
| Clients.NodeAndWalletMeet | crates/hodl-node/src/follower.rs:58-98 | a node that scans and a wallet that walks spends, each with its own server and view, end at the same anchor with the wallet representing the node's ledger; or a collision |
| Backing.RunReplays | crates/hodl-node/src/follower.rs:180-203 | the bodies of an accepted run replay from genesis to the ledger after each block |
| Backing.RunAuthorised | crates/hodl-node/src/follower.rs:163-178 | every mint of an accepted run was verified against the view its block was checked with |
| Backing.RunBacked | crates/hodl-core/src/state.rs:93-152 | after every block of an accepted run the supply is backed by value locked on L1, each outpoint is credited at most once, nothing was clipped, and balances plus burned fees are the minted total |
| Backing.ClientBacked | crates/hodl-core/src/proof.rs:300-340 | the same for the ledger any node holds or any wallet stands for, after any ticks or sessions with truthful views; or a collision |
| Sequencer.ProducedMintsVerify | crates/hodl-sequencer/src/producer.rs:127-141 | the mints of a produced block carry events that a follower with a stable view verifies |
| Sequencer.EntryStableIff | crates/hodl-core/src/proof.rs:197-298 | a mint accepted under one view, its output unchanged in another, is accepted there if and only if its claimed height is not ahead of that view's tip |
| Sequencer.ProducedBlockAccepted | crates/hodl-sequencer/src/producer.rs:100-219 | a produced block is accepted by a node at the same head, alone or at the end of a batch, if and only if the node's view verifies its mints, as a stable one does, and leaves it with the sequencer's ledger |
| Inclusion.ProducedBody | crates/hodl-sequencer/src/producer.rs:116-148 | which submitted mints and transfers a block contains, in which order: each mint if and only if its proof verifies and it applies after those kept before it, each transfer if and only if it applies after the mints and transfers kept before it |
| Inclusion.CleanOfferIncluded | crates/hodl-sequencer/src/producer.rs:116-148 | if every proof verifies and all of it applies in order, the block contains everything submitted |
| Inclusion.ProductionWrites | crates/hodl-sequencer/src/producer.rs:150-209 | the header field by field, and the ledger, head, cursor and stored block that follow |
| Inclusion.AttestWrites | crates/hodl-sequencer/src/producer.rs:232-296 | what an L1 check writes when idle, when the post fails and when it succeeds |
| Inclusion.MonitorRewinds | crates/hodl-sequencer/src/producer.rs:380-395 | a missing attestation, and nothing else, rewinds the last attested height, by one |
| Inclusion.FinalAtTwo | crates/hodl-sequencer/src/producer.rs:47-48 | an attestation is final from two confirmations on |
| Sequencer.Surviving | crates/hodl-sequencer/src/producer.rs:310-379 | exactly the entries that are neither final nor missing stay |
| Sequencer.LastMissing | crates/hodl-sequencer/src/producer.rs:358-397 | the loop remembers only the last missing entry |
| Sequencer.MonitorKeepsChainIff | crates/hodl-sequencer/src/producer.rs:301-397 | monitoring keeps the pending entries chained to the anchor if and only if none stays or what stays is an uninterrupted stretch ending with the newest entry or right before the last missing one |
| Sequencer.OrderlyKeepsChain | crates/hodl-sequencer/src/producer.rs:301-397 | in particular when finality comes in posting order and only the newest entry can be missing |
| Sequencer.MissingInTheMiddleBreaksChain | crates/hodl-sequencer/src/producer.rs:358-397 | a missing entry followed by a live one breaks the chain |
| Sequencer.DeadAnchorIff | crates/hodl-sequencer/src/producer.rs:358-397 | monitoring leaves an anchor that no transaction creates if and only if the entry before the last missing one is missing too |
| Sequencer.TwoMissingKeepDeadAnchor | crates/hodl-sequencer/src/producer.rs:358-397 | the smallest such input |
| Sequencer.DeadAnchorForever | crates/hodl-sequencer/src/producer.rs:232-296 | from a dead anchor, while posts that spend it are refused and nothing else goes missing, neither anchor nor last attested height moves again |
| Sequencer.AttestKeepsChain | crates/hodl-sequencer/src/producer.rs:232-296 | producing and posting, or failing to post, keeps the chain |
| Sequencer.AttestedOnce | crates/hodl-sequencer/src/producer.rs:232-246 | once posted for an L1 tip, attesting again at that tip does nothing |
| Sequencer.FailedPostRetriedIff | crates/hodl-sequencer/src/producer.rs:232-296 | after a failed post the next check at that tip tries again if and only if a post has succeeded before or the block just produced saw an older L1 |
| Sequencer.ProductionKeepsDueIff | crates/hodl-sequencer/src/producer.rs:186-195 | before the first post, producing a block leaves a post due at a tip if and only if the block saw an older L1; afterwards it does not matter |
| Sequencer.FirstPostForgotten | crates/hodl-sequencer/src/producer.rs:235-246 | the input: nothing posted yet, L1 one block further, and the post fails or a block tick comes first; the check at that tip is then idle |
| Sequencer.MissingIsReposted | crates/hodl-sequencer/src/producer.rs:358-397 | after a missing attestation the next one is due at the same L1 tip and spends what the missing one had spent |
| Sequencer.PendingChainInvariant | crates/hodl-sequencer/src/producer.rs:232-397 | in every reachable state pending entries form one chain of anchors ending at the stored anchor, with strictly increasing L2 heights |
| PostHistory.StandingAnchor | crates/hodl-sequencer/src/producer.rs:232-397 | the stored anchor is the output of the last post that stands, pending or final, or the first anchor if none stands |
| PostHistory.MonitorKeepsStandingIff | crates/hodl-sequencer/src/producer.rs:301-397 | monitoring keeps that, and pending as the end of the standing posts, if and only if finality comes in posting order and at most the newest is missing |
| PostHistory.StandingInvariant | crates/hodl-sequencer/src/producer.rs:232-397 | so it is in every state reachable through such reports, over productions, posts, failed posts, finalisations and reverts |
| Sequencer.Producer.constructor | crates/hodl-sequencer/src/producer.rs:49-58 | a producer object holds the state it resumes from, with a ledger of its own |
| Sequencer.Producer.ProduceBlock | crates/hodl-sequencer/src/producer.rs:100-219 | mints re-verified with fresh events, then transfers, on a cloned ledger; block, witness of the prior ledger, new ledger, cursor and head are then stored |
| Sequencer.Producer.AttestIfL1Moved | crates/hodl-sequencer/src/producer.rs:232-296 | posts at most once per L1 advance, on top of a fresh block, and records the post |
| Sequencer.Producer.MonitorPending | crates/hodl-sequencer/src/producer.rs:301-397 | drops final and missing entries; a missing one rewinds anchor and last attested height |
| Sequencer.SortPending | crates/hodl-sequencer/src/producer.rs:310-379 | the loop separates survivors from the revert target |
| LockStep.StableSuffices | crates/hodl-core/src/proof.rs:197-298 | a view that shows the mint outputs as the producer saw them verifies the mints of a published block |
| LockStep.FollowInStep | crates/hodl-node/src/follower.rs:147-231 | whatever its view, the follower stays on the sequencer's ledger, and takes the next published block if and only if the view verifies that block's mints |
| LockStep.BatchInStep | crates/hodl-node/src/follower.rs:113-132 | a batch attested only at its last block is taken whole, ending at the sequencer's ledger there, if and only if the view verifies its mints; otherwise up to the first block it does not verify, still in step |
| LockStep.WalletInStep | crates/hodl-wallet/src/verify.rs:292-535 | a wallet at the follower's head accepts the next published block with the published witness and stays with the follower |
| LockStep.StepKeepsInStep | crates/hodl-sequencer/src/producer.rs:100-397 | productions, posts, reorg recoveries and follower steps with any view all keep the two in step |
| LockStep.LockStepHolds | crates/hodl-sequencer/src/producer.rs:100-397 | over every interleaved run from genesis, with any views, the follower holds at height `h` the ledger the sequencer had after block `h`, and refuses a published block for no other reason than a mint its view does not verify |
| Network.AdvanceInWorld | crates/hodl-node/src/follower.rs:100-141 | a mined attestation that spends the follower's anchor is the next standing post and lies above its head; it is processed in full if and only if the view verifies the mints of the blocks it adds |
| Network.TickSettles | crates/hodl-node/src/follower.rs:58-98 | a tick completes, leaving nothing mined unfollowed, if and only if the view verifies the mints of every block attested on L1 and not yet held; otherwise it stops at such a mint, and the world is as sound as before |
| Network.NetworkHolds | crates/hodl-sequencer/src/producer.rs:61-95 | over every run in which the sequencer produces, posts and recovers, L1 mines its attestations and the follower, with any views, sees only L1 and published blocks: the follower holds the sequencer's ledger at its height, and its next tick brings it to the last attestation mined if and only if its view then verifies the mints of the blocks attested since |
| WalletNetwork.BatchHonest | crates/hodl-sequencer/src/producer.rs:181-186 | the witnesses the sequencer stored are those a node at that ledger builds, block by block along a batch |
| WalletNetwork.WalletInWorld | crates/hodl-wallet/src/verify.rs:240-281 | a wallet standing with the follower fails its walk if and only if an unconfirmed transaction spends the last anchor, given its view suffices; a walk that gets that far succeeds if and only if the view does, and ends where a tick with that view ends |
| WalletNetwork.WalletMeetsFollower | crates/hodl-wallet/src/verify.rs:240-281 | a wallet and the follower, each with its own sufficient view, meet again at the same anchor and ledger |
| WalletNetwork.WalletFollowsNetwork | crates/hodl-wallet/src/verify.rs:240-281 | so it is in every world the network reaches |
| History.ProjectGrows | crates/hodl-wallet/src/ops.rs:51-166 | projection changes nothing but statuses, and no final record; an included record stays included |
| History.RefreshMovesForward | crates/hodl-wallet/src/ops.rs:51-247 | projection and finalisation together never move a record out of `Finalized` or from `InBlock` to an earlier status, and add at most one record an event |
| History.ProjectCounts | crates/hodl-wallet/src/ops.rs:51-166 | one new record for each observed key that had none, and no other |
| History.ProjectOneMeans | crates/hodl-wallet/src/ops.rs:51-166 | one event: a new record with the kind, amount, other party, key and status of that event if none is about it, else the first such record moves into the block unless it is a receipt or final; nothing else changes |
| History.ProjectIdempotentIff | crates/hodl-wallet/src/ops.rs:45-166 | on given records and events, projecting twice is projecting once for all ids and clock readings, if and only if each event has a block time, is a receipt, is overwritten by a later event of its key, or belongs to a record that was final from the start |
| History.ProjectIdempotent | crates/hodl-wallet/src/ops.rs:45-166 | in particular for block times that are not zero |
| History.ZeroBlockTimeNotIdempotent | crates/hodl-wallet/src/ops.rs:53 | with a zero block time the clock shows through and the second pass changes the record |
| History.FinalizeMeans | crates/hodl-wallet/src/ops.rs:236-247 | an included record becomes final, at its own heights, if and only if it is deep enough; no other record changes; a second pass does nothing |
| History.WalletHistory.ProjectEvents | crates/hodl-wallet/src/ops.rs:51-166 | the loop over events updates and appends as specified |
| History.WalletHistory.FinalizeDeep | crates/hodl-wallet/src/ops.rs:236-249 | the loop finalises included records that are deep enough and reports exactly whether anything changed |

## Left out

Representation:

- Addresses, digests and transaction ids are 256-bit numbers written as 32 bytes; an address need not be the x-coordinate of a curve point, so results cover more addresses than exist.
- JSON forms, SQLite, HTTP and RPC are not modelled. An API server is a map from heights to blocks and witnesses; each group of store writes is one atomic step.
- A walk or a tick sees one L1 view; each tick may be given another. L1 grows by appending blocks. An L1 reorg behind a follower's cursor is not modelled (the follower does not handle one), nor are transport errors.
- Random ids and the clock are parameters. A failed post is an absent transaction id.
- The recursions over account and update lists are functions, as in the source; the cached table of empty hashes is checked apart, in `EmptySubtreeHashes`.
- CoversTouched: compares witness and block addresses as multisets, which is what comparing the sorted vectors amounts to.
- VerifyMintEntry: reports one error for a mismatch in any event field, where the source names the field.
- VerifyBlock: a mint outpoint that the wallet cannot fetch, or finds unconfirmed, is reported as not found when its mint is checked, not beforehand. The block is refused either way.
- Draining the mempool is the list of candidates given to a production.
- FollowerNode: the block and witness a node stores for its own clients are not part of its state here; the sequencer's are.
- GenesisAccepted: the node's comparison of the genesis L1 height with its configuration is not modelled, so agreement covers more genesis blocks than a node would accept.

Premises, beyond what the source itself checks:

- Conservation: premise that the mints sum below 2^64-1, which `SupplyBackedByL1` derives from the value locked on L1; without it, `NeverClipsIff` and `BooksBalanceIff` give the exact conditions.
- EmptyLeafMeansZero: every address sends at most 2^64-1 transfers, as its nonce wraps to zero after that.
- NetworkHolds: block heights do not reach 2^32-1, and L1 confirms final attestations in posting order, loses at most the newest one at a time and none it has mined, gives new transactions new ids, and lets nobody but the sequencer spend an anchor. Of the follower's view nothing is assumed.
- ClientBacked: the views a client used report, for outputs that are locked on L1, their true values, less than 2^64-1 in all.
- PendingChainInvariant: finality comes in posting order and only the newest entry can be missing; what happens otherwise is `MonitorKeepsChainIff`, `DeadAnchorIff` and `MonitorKeepsStandingIff`.
- TraversalsAgree: an output is spent at most once and after the transaction that creates it.
- TickCompletes: the same.
- BootstrapExact: whether the served mint counter is right is outside it, as no root commits to that counter.
- ColdStartMeetsNode: a genesis header with another anchor sets the wallet on another chain of L1. The source compares the served genesis with nothing, and nothing is claimed for that case.
- SessionsExtendRun: a refresh that fails leaves the stored head; a wallet that starts over from a cold start is a client with a new past.

Parts of the repository without a counterpart:

- MintFn: of the floating-point `mint_fn` only the bound on its result is kept, as an assumption.
- SHA-256, Schnorr, taproot and script building (`l1.rs`, `reclaim.rs`), bech32m (`address.rs`).
- The attestation byte codec (`op_return.rs`): the parser is any function of the script.
- The handlers of `api.rs`, soft confirmations and `effective_nonce`: they repeat checks that the ledger makes anyway. The zk discussion in the documentation.
- Pass 1 of `finalize_and_refresh`, which asks an explorer about unconfirmed deposits.
- Wallet files, encryption, key derivation, the desktop application, regtest scripts.
