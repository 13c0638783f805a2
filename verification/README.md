# NeoCoin ledger: a verified model

A Dafny 4.11 model of NeoCoin's proof-of-work ledger (package `main` under `blockchain/`) and of its LRU cache
(`internal/cache/`), with proofs over every run, every chain and every input. `dafny verify dfyconfig.toml`
checks the whole project.

What is modelled, from the outside in:

- **Runs** (`Worlds`, `Traces`, `Soundness`, `Restarts`, `Runs`, `Loading`, `Deliveries`, `Copies`). A node over its store starts
  from a fresh genesis, receives blocks, mines to any address, is audited and is restarted, with any clock, with store
  transactions that commit or not, and with mining steps that fail wherever they fail. At every point of every run:
  - the node is sound (stored blocks with accepted paths, a chain that is the path to the tip, replays, passes the
    audit, accounts for its money, counts nonces and is indexed) if and only if every block it mined fitted: there was
    room for it and it applied to the accounts of the chain;
  - then the tip is the best stored block if and only if it tops every tip that a restart out of sync gave up;
  - the node's own accounts are the replay unless a mining step has failed on them since they were last rebuilt;
  - and every stored block proves its work, names this chain, keeps to the size limit and carries signed transfers
    only, so that an account pays only by transfers signed with its key.

  Two runs that end with the same stored blocks are both sound or neither; sound and on the best tip they end in the
  same node up to such accounts, whoever mined. The same blocks delivered parents first end in the same node in every
  order if and only if no two good blocks among them share a hash. A restart gives the node back if and only if its
  last change of tip reached the store's canonical chain and its accounts are the replay.
- **The Blockchain object** (`Chain`) and its **store** (`Disks`). Classes with the fields of the program; `AddBlock`,
  `MineTransfers` and `AuditChain` update them in place and are proved against the functions in `ForkChoice`,
  `NodeRules`, `Worlds` and `Audit`.
- **Fork choice** (`BlockTree`, `ForkChoice`, `Reorgs`). Proved for any rules that are *lawful* (admission seals a block,
  the clock can only reject, every block adds work); `NodeRules` shows that the node's own rules are.
- **Path and block rules** (`PathRules`, `TimeRules`, `Difficulty`, `Pow`, `Ledger`, `TxRules`, `Monetary`). `Acceptance`
  and `PathRules.AcceptedIff` state, apart from the checks themselves, exactly which transactions, blocks and chains
  pass them.
- **Mining** (`MiningTheorems`, `MiningFailures`, `Mempools`, `Selection`, `Witnesses`). What the miner builds is what
  a validator accepts, with the exact conditions under which a selection or a failed step misbehaves.
- **Commitments and codecs** (`Headers`, `Commitments`, `Merkle`, `TxCodec`, `Encoding`, `Layouts`, `Addresses`,
  `RulesHash`, `Checkpoints`, `Hex`).
- **LRU cache** (`Lru`).

Modelling decisions:

- SHA-256, Ed25519, address derivation and validation, JSON forms and the JSON block size are function-typed
  fields of `Types.Env`; `Addresses` models the program's own address form. Collision resistance is assumed only on
  the finite set of inputs that were actually hashed (`Merkle.NoCollisions`).
- Blocks are keyed by raw hash bytes. The program keys them by lower-case hex; `Hex` proves hex injective and
  order preserving, so equality and the smallest-hash tie-break agree.
- uint64, uint32 and int64 wrap-around is written out (`Words.AddU64`, `MulU64`, `WrapI64`). Theorems that need
  no wrap say so; several state exactly when wrapping breaks a property.
- The wall clock, store outcomes, spam verdicts, receive times and the coinbase text are parameters. Map
  iteration order is an arbitrary choice. Each mutex-protected section is one step.
- The library sort is insertion into an ordered sequence (`Sorting`).

Properties of the program that turned out to hold only conditionally, with their exact conditions and failing inputs:

- Deliveries converge in every order if and only if no two good blocks share a hash (`DeliveriesConvergeIff`). Such
  pairs exist without any hash collision: a header holds no address strings, so a block and its copy with one address
  in capitals have one hash, either is admitted and accepted, and the node keeps whichever came first
  (`CopyIsTwin`, `CopiesDiverge`, `FirstCopyStays`).
- A node stays sound if and only if every block it mines fits (`RunInvariant`), and its tip stays best if and only if it
  tops the tips given up by restarts out of sync, each of which leaves the best tip (`AuditsAndRestarts`).
- A restart gives the node back if and only if the last change of tip reached the store and the accounts are the replay
  of the chain (`RestartRestoresIff`). After a rewrite that does not commit the node comes back on the old tip, which
  is not the best block it knows (`FailedRewriteForgets`); after an append that does not commit it comes back with
  other accounts than it had (`FailedAppendForgets`).
- A failed `MineTransfers` leaves the node untouched if and only if it fails before the coinbase is credited
  (`FailedMiningIsCleanIff`); a store failure after that leaves changed accounts (`StoreFailureChangesAccounts`), and
  only them (`FailedMiningIsRepaired`).
- A mined block keeps the node sound if and only if there is room for one more height and second and it applies to the
  accounts of the chain (`MineKeepsSoundIff`), as it does when these are the node's own (`CleanMineFits`). On accounts
  left behind by a failed step it may not: then the next block mines and no validator accepts the chain
  (`StaleAccountsBreakChain`).
- A selection mines if and only if no early guard stops it, the miner's own transfers stay covered once the coinbase
  is credited, and the store takes the block (`MiningASelectionIff`); a fresh node whose miner owns 2^64 - 1 units
  picks its one pending transfer and then lacks the funds to mine it (`PickedButNotMined`). The miner's checks pass a
  selection if and only if every pick is for this chain and pays a fee (`MinerRefusesPicks`), which selection does not
  look at: a fresh node picks a transfer without a fee, or for another chain, and then refuses it
  (`PickedButRefused`).
- A path accepted once is accepted at another clock if and only if that clock's drift bound, as wrapped, is past its
  timestamps (`AcceptanceIsStable`); at the last int64 no chain with a timestamp from 1970 on is
  (`LastClockRejects`).
- A transfer burns exactly its fee if and only if debit and credit wrap together (`TransferConserves`), and a chain
  conserves money exactly if and only if its wraps cancel (`ConservesIff`); one transfer whose amount and fee add up
  to 2^64 makes 2^64 - 1 units from nothing (`MoneyFromNothing`).
- The rules-hash bytes identify the parameters up to windows modulo 2^32 (`MarshalIdentifiesRules`,
  `WindowTruncationCollides`).
- The factor-4 span clamp never changes the difficulty decision if and only if the wrapped quadruple is at least
  half the expected span (`SpanClampIsHarmless`, `HugeWindowFails`).
- A raise of the difficulty never lowers it if and only if the step does not wrap the uint32 cast or the bits are
  already least (`RaiseRaisesIff`, `HugeStepLowers`).
- A checkpoint file restores the table if and only if every hash has 32 bytes, every state root fits 16 bits of length
  and no height is above the latest one (`CheckpointRoundTrip`). A short hash is lost (`ShortHashIsLost`), and so is a
  later checkpoint once a system has loaded an older file (`OlderFileLosesLater`).
- The height loop of that encoder ends if and only if the latest height is not the last uint64 (`EncoderEndsIff`), and
  the nonce search if and only if some nonce stops it (`SearchEndsIff`).
- The mined header passes the header rules if and only if the latest timestamp is not the last int64
  (`CandidateHeader`); on such a tip mining leaves a chain no validator accepts (`LastSecondBreaksChain`).
- A Merkle root binds its leaves for a given number of leaves (`MerkleRootBinding`), not across numbers
  (`OddLeafDuplicated`); then the longer list repeats a leaf (`MerkleRootRepeats`), which no ledger accepts
  (`HeaderCommitsToTxs`).
- Two accepted blocks with equal binary headers leave the same accounts if and only if they pay every address string
  the same, modulo 2^64 (`SameHeaderSameAccountsIff`): a header holds the hash in an address, the ledger keys accounts
  by the string. The last transfer of a block, paid to the capitals of its address, keeps the transaction root and
  credits another account (`RedirectedBlock`, `CapitalsRedirect`).

## Model

| member | source | states |
|---|---|---|
| Runs.RunInvariant | blockchain/forks.go:16-146 | at every point of every run of deliveries, mining steps, audits and restarts, failed ones included, the node is sound if and only if every mined block fitted; then its tip is best if and only if it tops the tips given up by restarts, and its accounts are the replay unless a mining step failed on them since they were last rebuilt |
| Runs.StepKeepsSound | blockchain/forks.go:70-120 | any delivery, audit, restart and mining step, failed or not, keeps the node sound and its store in step, unless it mines a block that does not fit; adoption, audit and restart make the accounts clean, and only a mining step that fails on them makes them unclean |
| Runs.StepKeepsTops | blockchain/forks.go:95-120 | after any step every stored block is topped by the tip or by a tip given up |
| Runs.UnfitForGood | blockchain/chain.go:329-343 | once a block that does not fit is mined the node is never sound again |
| Runs.RunRemembers | blockchain/store_bolt.go:93-111 | along every run, sound or not, no known block is forgotten, and node and store know the same blocks |
| Runs.AuditsAndRestarts | blockchain/chain.go:83-177 | an audit within the drift bound and a restart in sync leave the node with its accounts replayed; a restart always loads, and out of sync leaves the best tip for one that is not |
| Restarts.RestartForgets | blockchain/chain.go:83-177 | a restart out of sync leaves the best tip, which stays known |
| Restarts.RestartKeeps | blockchain/chain.go:83-177 | a restarted node is sound, clean and in sync, knows every block, and is the old one with its accounts replayed if that was in sync |
| Restarts.AuditRepairs | blockchain/chain.go:359-418 | an audit changes at most the accounts, and within the drift bound makes them the replay |
| Runs.CleanRunFits | blockchain/chain.go:329-343 | blocks mined on clean accounts with room above all fit |
| Runs.LeadingMinesNew | blockchain/chain.go:320-327 | absent header collisions a block mined on the best tip has a new hash |
| Soundness.CleanMineFits | blockchain/chain.go:329-343 | on accounts that are the replay every mined block fits where there is room |
| Runs.TidyIsClean | blockchain/chain.go:329-334 | when the accounts have been rebuilt since a mining step last failed on them they are the replay of the chain |
| Soundness.ReceiveKeepsSound | blockchain/forks.go:70-120 | receiving any block keeps a node sound, replaces its accounts by the replay when it changes the tip and leaves them otherwise |
| Soundness.MineKeepsSoundIff | blockchain/chain.go:329-343 | a mined block keeps a node sound if and only if there is room for it and it applies to the accounts of the chain |
| Witnesses.StaleAccountsBreakChain | blockchain/chain.go:329-343 | from a fresh genesis a failed append leaves a sound node on which the next transfer mines with nothing else amiss, does not fit, and leaves a chain no validator accepts |
| Soundness.FailedMiningIsRepaired | blockchain/chain.go:456-464 | a mining step that fails anywhere changes at most the accounts, and the replay that ends an audit restores them |
| Runs.RunsConverge | blockchain/forks.go:70-120 | two runs ending with the same stored blocks are both sound or neither; sound, they end with the same chain, work, indexes and replayed accounts exactly when on the same tip, as they are when both are on the best |
| Deliveries.DeliveriesConverge | blockchain/forks.go:70-120 | the same blocks, no two good ones under one hash, delivered after all blocks under their parents' hashes in any two orders, at clocks that reject no good path, lead to the same node |
| Deliveries.DeliveriesConvergeIff | blockchain/forks.go:70-120 | blocks that can be delivered parents first at all lead to the same node in every such order if and only if no two good blocks among them share a hash |
| Deliveries.OrdersDiverge | blockchain/forks.go:70-80 | from any such order of blocks with two good ones under one hash another can be made that ends with another store |
| Copies.CopyIsTwin | blockchain/encoding_bin.go:32-156 | the copy of a good block with its last transfer paid to another string for the same address is another good block with the same hash |
| Copies.CopiesDiverge | blockchain/forks.go:70-80 | deliveries of a good block and its copy diverge |
| Copies.FirstCopyStays | blockchain/forks.go:70-80 | a node that would store a block would store its copy instead; whichever comes first stays and the other is turned away at any later time |
| Deliveries.DeliveriesSettle | blockchain/forks.go:70-120 | after any such delivery without two good blocks under one hash the stored blocks are exactly the good ones |
| Deliveries.DeliverOne | blockchain/forks.go:70-93 | one delivery stores the block exactly when it is good, where no good block under its hash came before |
| Deliveries.WithinDriftIsTimely | blockchain/time_rules.go:26-31 | a clock rejects no good path once all blocks are within its drift bound |
| Runs.RunForkChoice | blockchain/forks.go:95-120 | at every point of a run whose mined blocks fitted every stored block has an accepted path and is topped by the tip or by a tip a restart gave up; where none was, no block has more work than the tip, none of equal work a smaller hash, and the tip is a leaf |
| Runs.RunReplaysAndAudits | blockchain/chain.go:359-418 | at every point of a run whose mined blocks fitted the chain is linked and numbered from genesis and replays, the replay is the accounts unless a mining step has failed on them, and the audit fails at most over the clock |
| Runs.RunSupply | blockchain/chain.go:607-690 | at every point of a run whose mined blocks fitted the balances of the chain are minted minus burned plus 2^64 per net wrap, so exact if and only if the wraps cancel, as they do without wrap; under the cap without wrap and tail emission; they are the node's own unless a mining step has failed on them |
| Runs.RunChainRules | blockchain/forks.go:176-216 | at every point of a run whose mined blocks fitted every transfer of the chain is signed over its bytes at its height, an account moves only by its receipts or by a transfer signed with its key, the nonces count sent transfers, indexes equal a rebuild, timestamps increase, and with retargeting the first window keeps the bits of genesis and all later bits stay in range and within one step |
| Runs.RunStoresBlocks | blockchain/forks.go:16-146 | every block stored at any point of a run whose mined blocks fitted, on the chain or off it, proves its work; but for genesis it names this chain in every transaction, keeps to the size limit, opens with the coinbase that is due and carries signed transfers only |
| Runs.RunAdmits | blockchain/forks.go:16-56 | every block stored in such a run but genesis, mined ones included, passes the admission of received blocks |
| Soundness.ChainFacts | blockchain/forks.go:176-216 | a node that follows the path to its tip has a hash-linked chain from genesis whose block i has height i, replayed |
| Loading.LoadBlockchain | blockchain/chain.go:83-177 | loading over a store yields the node rebuilt from its canonical chain and blocks, writing the genesis block to an empty one, or the first error |
| Restarts.ReloadRestores | blockchain/chain.go:756-770 | a node rebuilt from its own chain is the same node with its accounts replayed, indexes and work included, among whatever else the store knows |
| Loading.FirstStartIsGenesis | blockchain/chain.go:137-147 | loading from an empty store is the state every run starts in |
| Loading.RestartRestoresIff | blockchain/chain.go:83-177 | at every point of a run whose mined blocks fitted a restart gives the node back if and only if the last change of tip reached the store's canonical chain and the accounts are the replay |
| Loading.RestartReturns | blockchain/chain.go:83-177 | a restart returns to the last point in sync with the store, its accounts replayed, with every block learnt since |
| Loading.FailedRewriteForgets | blockchain/forks.go:113-125 | after a rewrite that does not commit the restarted node follows the old tip, which is not the best block it knows |
| Loading.FailedAppendForgets | blockchain/chain.go:329-334 | after a valid block whose append does not commit the store is in sync, yet the restarted node has other accounts than the node had |
| Loading.RunDisk | blockchain/store_bolt.go:93-249 | along every run whose mined blocks fitted the store knows every block the node knows, and its canonical chain is the node's at the last point in sync |
| Restarts.MineKeepsDisk | blockchain/store_bolt.go:154-198 | a mined block is appended only while the store is in sync, and leaves it in sync |
| Restarts.ReceiveKeepsDisk | blockchain/forks.go:113-125 | a delivery leaves the canonical chain in sync after a rewrite that commits, out of sync after one that does not, and as it was when the tip stays |
| Disks.BoltStore.PutBlock | blockchain/store_bolt.go:93-111 | a block is added unless its hash is there already; a refused or failed write changes nothing |
| Disks.BoltStore.AppendCanonical | blockchain/store_bolt.go:154-198 | a block is appended over its stored parent; a refused or failed write changes nothing |
| Disks.BoltStore.RewriteCanonical | blockchain/store_bolt.go:200-249 | the loop replaces the canonical chain and adds its blocks; a refused or failed write changes nothing |
| Disks.BoltStore.ReadCanonical | blockchain/store_bolt.go:131-152 | the canonical blocks by height, or an error exactly when one is missing |
| Disks.ReadsBack | blockchain/store_bolt.go:131-249 | a chain written is the chain read |
| Chain.Blockchain.AddBlock | blockchain/forks.go:16-146 | new state, reorg flag and error are those of the fork-choice function, the deletion on error included, and the store takes the writes that go with them |
| Chain.Blockchain.Settle | blockchain/forks.go:83-125 | a judged block is rolled back, kept aside, or followed, with the store writes of each case |
| Chain.Blockchain.Follow | blockchain/forks.go:113-125 | chain, accounts, tip, work and indexes are replaced together, before the rewrite that may fail |
| Chain.ComputeCanonical | blockchain/forks.go:148-218 | walk, reversal and replay equal the canonical path and view of the tip |
| Chain.Blockchain.MineTransfers | blockchain/chain.go:253-357 | node, store and outcome are those of the mining step at the first nonce that stops the search, which solves the block if it is mined |
| Chain.Blockchain.CommitMined | blockchain/chain.go:329-343 | the live accounts change even on error; on success the store and every view are updated |
| Chain.CheckAndSum | blockchain/chain.go:273-291 | the transfer checks with their first error, and the wrapped fee total |
| Chain.Blockchain.AuditChain | blockchain/chain.go:359-418 | reports the audit function's finding and takes the audit step: nothing changes but the accounts, which become the replay once the headers pass |
| Audit.CheckAuditHeaders | blockchain/chain.go:367-415 | the loop over the blocks reports the first finding |
| Audit.AuditPasses | blockchain/chain.go:359-418 | under the invariant the audit finds nothing, unless a timestamp is ahead of the clock, and replay gives the same accounts |
| Audit.AuditAgrees | blockchain/chain.go:359-418 | a chain passes the audit if and only if it is accepted as a path and every block carries its proof of work |
| Audit.AcceptedPassesAudit | blockchain/chain.go:367-415 | any sealed and accepted path passes the audit |
| ForkChoice.Convergence | blockchain/forks.go:95-120 | two states with the invariant and the same store are equal |
| ForkChoice.AddBlockKeepsInv | blockchain/forks.go:70-146 | receiving any block, with any store outcome, keeps the invariant |
| ForkChoice.AddBlockKeepsFollows | blockchain/forks.go:70-146 | on any tip, best or not, a delivery keeps store, chain and views in step |
| ForkChoice.BestIff | blockchain/forks.go:95-108 | where a tip and other blocks top everything, the tip is best if and only if it tops the others |
| ForkChoice.AddBlockErrors | blockchain/forks.go:70-93 | on any tip a receive never ends in a cycle or a missing ancestor, and every error before the rewrite leaves the node unchanged |
| Reorgs.ReorgMeaning | blockchain/forks.go:113-145 | a block that takes over the tip reports a reorg exactly when the old chain is not the new one without its last block |
| ForkChoice.WalkSucceeds | blockchain/forks.go:148-168 | from a block on a stored parent the walk reaches genesis and appends the block to its parent's path |
| ForkChoice.TipIsUniqueBest | blockchain/forks.go:95-108 | the tip is strictly better than every other stored block |
| ForkChoice.TipHasNoChild | blockchain/work.go:5-15 | no stored block has the tip as parent, since a child has strictly more work |
| ForkChoice.TipIsLeaf | blockchain/forks.go:282-300 | the tip is one of the known tips |
| ForkChoice.KnownTips | blockchain/forks.go:282-300 | returns exactly the hashes no stored block names as parent, in strict order |
| ForkChoice.BetterTotal | blockchain/forks.go:101-106 | of two different blocks exactly one is better |
| ForkChoice.BetterTransitive | blockchain/forks.go:101-106 | the fork-choice order is transitive |
| ForkChoice.GenesisInv | blockchain/chain.go:137-147 | a fresh genesis satisfies the invariant |
| BlockTree.WalkToGenesis | blockchain/forks.go:148-174 | the loop terminates on any block map and returns the path to genesis, or the cycle or missing-ancestor error |
| BlockTree.PathOfChild | blockchain/forks.go:148-174 | filing a block extends its parent's path by that block |
| BlockTree.PathOfOthers | blockchain/forks.go:148-174 | filing a new block changes no other block's path |
| BlockTree.PathStructure | blockchain/forks.go:148-174 | a path ends at its tip and each block's parent is the one before it |
| NodeRules.RulesLawful | blockchain/forks.go:16-218 | the node's rules are lawful: admission seals, the clock only rejects, every block adds work |
| NodeRules.AdmissionLaw | blockchain/forks.go:16-56 | an admitted block has valid proof of work, a nonzero height and a hash |
| Acceptance.AdmissionIff | blockchain/forks.go:16-56 | a block is admitted if and only if it is no genesis, has the version of its height and valid proof of work, and every transaction has chain id 0 or this chain and is acceptable at that height |
| Acceptance.CheckTxsIff | blockchain/forks.go:44-56 | the transaction checks pass if and only if every transaction has chain id 0 or this chain and is acceptable |
| Acceptance.CheckTransfersIff | blockchain/chain.go:273-291 | the miner takes transfers if and only if each is a transfer for this chain, acceptable at the next height, that pays a fee |
| Acceptance.OwnChainOnly | blockchain/forks.go:44-56 | an admitted block that the ledger takes names this chain in every transaction |
| Acceptance.PrecheckIff | blockchain/chain.go:607-647 | the checks before the ledger pass if and only if the block keeps to the size limit, opens with a coinbase and, above genesis, pays a valid miner exactly reward plus fee share, in uint64 |
| Acceptance.BlockIff | blockchain/chain.go:607-690 | the ledger takes a block if and only if it is well formed and every transaction is acceptable and, coinbase only at the front, has the next nonce of its sender and is covered, on the accounts that those before it leave |
| Acceptance.OnlyOwnerSpends | blockchain/chain.go:649-688 | in a block the ledger takes, an account keeps its nonce and gains exactly what the block pays it, unless the block holds a transfer whose key hashes to the address and whose 64-byte signature verifies over its bytes at that height |
| Acceptance.ChainIsAuthorized | blockchain/chain.go:607-690 | the same from block to block of every accepted chain, whose blocks are all well formed with signed transfers only |
| Acceptance.HistoryIsSigned | blockchain/types.go:106-120 | every transfer in the history of an accepted chain carries a 64-byte signature that verifies under its key over its bytes at the height of its block |
| NodeRules.WorkLaw | blockchain/forks.go:213-214 | an accepted path with one more sealed block has strictly more work |
| MiningTheorems.MineEqualsReceive | blockchain/chain.go:329-343 | mining a block to any address and receiving it lead to the same node: incremental and rebuilt views agree |
| MiningTheorems.MineKeepsInv | blockchain/chain.go:253-357 | a block mined under a new hash becomes the tip, adds work and keeps the invariant |
| MiningTheorems.MineKeepsFollows | blockchain/chain.go:253-357 | on any tip, best or not, a mined block keeps store, chain and views in step |
| MiningTheorems.MinedBeatsAll | blockchain/chain.go:320-343 | a mined block has strictly more total work than every stored block |
| MiningTheorems.MinedIsAdmitted | blockchain/forks.go:16-56 | a mined block, whoever mined it, passes the admission every node with these rules applies |
| MiningTheorems.CandidateHeader | blockchain/chain.go:264-320 | the candidate passes every header rule if and only if the latest timestamp is not the last int64 |
| MiningTheorems.LastSecondBreaksChain | blockchain/chain.go:267-271 | on a tip at the last int64 a block that mines leaves a chain no validator accepts |
| MiningTheorems.MinedHashIsNew | blockchain/chain.go:321-327 | a mined hash is not stored yet, absent collisions among the headers seen |
| MiningTheorems.MiningTimeAdvances | blockchain/chain.go:267-271 | the mined timestamp is later than the latest one exactly when int64 has room |
| MiningTheorems.MiningTimeIsClock | blockchain/chain.go:267-271 | the mined timestamp is the clock when that is past the latest block, else one second after the block, wrapping at the last int64 |
| MiningTheorems.MinedContents | blockchain/chain.go:292-320 | a mined block is the next height on the latest block, with the next bits, a coinbase to the miner with its text for this chain, and the transfers in order |
| MiningFailures.FailedMiningIsCleanIff | blockchain/chain.go:329-334 | a failed mining step leaves the node as it was if and only if an early guard stopped it |
| MiningFailures.StoreFailureChangesAccounts | blockchain/chain.go:329-334 | a valid block the store refuses leaves its accounts applied |
| MiningFailures.TransfersMoveNonces | blockchain/chain.go:649-688 | applied transfers never lower a nonce and, if any applied, raise one |
| Ledger.ApplyBlockToState | blockchain/chain.go:607-690 | the account map is written as transactions pass; the first error stops and keeps what was applied |
| Ledger.ApplyTransactions | blockchain/chain.go:649-688 | the loop over the transactions gives the ledger function's accounts and first error |
| Ledger.CheckBlock | blockchain/chain.go:607-647 | size, first-transaction, miner and coinbase-amount checks in order |
| Ledger.SumFees | blockchain/chain.go:631-637 | the uint64 running total is the mathematical sum modulo 2^64 |
| Ledger.RecomputeState | blockchain/chain.go:456-464 | replay from no accounts, stopping at the first bad block |
| Conservation.TransferConserves | blockchain/chain.go:661-688 | a transfer, also to oneself, removes exactly its fee if and only if debit and credit wrap together |
| Conservation.TransferMoves | blockchain/chain.go:661-688 | sender pays amount and fee and takes the nonce, recipient gains the amount, paying oneself costs the fee, nobody else moves |
| Conservation.TransferTotal | blockchain/chain.go:661-688 | the change of the sum of balances under every wrap-around |
| Conservation.WrappedDebitInflates | blockchain/chain.go:674-688 | amount and fee that add up to 2^64 pass the funds check, cost nothing, and create the amount |
| Conservation.MoneyFromNothing | blockchain/chain.go:674-688 | with no money anywhere one such transfer makes 2^64 - 1 units |
| Conservation.BlockTotalExact | blockchain/chain.go:607-690 | without wrap a block adds its coinbase and removes its fees |
| Conservation.SupplyWithWraps | blockchain/chain.go:607-690 | on any accepted chain balances are minted minus burned plus 2^64 for every debit wrap, less every credit, coinbase and reward wrap, with no hypothesis |
| Conservation.ConservesIff | blockchain/chain.go:607-690 | a chain conserves money exactly if and only if its wraps cancel |
| Conservation.CoinbasePays | blockchain/chain.go:642-646 | the coinbase of an accepted block pays subsidy and fee share, less 2^64 when they wrap |
| Conservation.SupplyExact | blockchain/chain.go:607-690 | without wrap balances are initial supply plus rewards minus the burned fee share |
| Conservation.SupplyCap | blockchain/monetary_policy.go:17-40 | without tail emission balances never exceed initial supply plus interval times (twice the reward plus 64) |
| Conservation.MintedCap | blockchain/monetary_policy.go:17-33 | what a chain mints is under the same cap, wrap or not |
| Conservation.MintedIsRewards | blockchain/monetary_policy.go:17-33 | minted is the genesis amount plus the block rewards of the heights reached |
| Monetary.RewardsByEra | blockchain/monetary_policy.go:17-33 | rewards summed by height equal full eras plus the current one |
| Monetary.EraTotalCap | blockchain/monetary_policy.go:17-33 | without tail emission the rewards of any number of eras, one block of each, sum to at most twice the first reward plus 64 |
| Monetary.EraTotalTight | blockchain/monetary_policy.go:17-33 | over all 64 eras they sum to twice the first reward, up to 64 units either way |
| Monetary.HalvedIsShift | blockchain/monetary_policy.go:25 | halving k times is division by 2^k |
| Monetary.RewardSchedule | blockchain/monetary_policy.go:17-33 | the subsidy of era k is the first reward over 2^k; where that is nothing the tail emission, or one unit without one; and from era 64 on the tail emission |
| Monetary.NoHalving | blockchain/monetary_policy.go:17-20 | with no halving interval every block has the first reward |
| Monetary.MinerFeeShareBound | blockchain/monetary_policy.go:35-40 | the miner's share never exceeds the fees, is a hundredth of the uint64 product, and without wrap the exact percentage |
| NoReplay.ChainSequenced | blockchain/chain.go:661-684 | on any accepted chain the k-th transfer of a sender has nonce k and account nonces count sent transfers |
| NoReplay.NoNonceReuse | blockchain/chain.go:661-684 | a sender's later transfer has a larger nonce, so none repeats |
| NoReplay.TransferNonces | blockchain/types.go:190-192 | a nonzero accepted nonce is the old one plus one without wrap; no other account's nonce moves |
| NoReplay.TxIdsUnique | blockchain/encoding_hash.go:22-42 | absent collisions no two transfers of a chain share a transaction id |
| Indexes.IncrementalIndex | blockchain/chain.go:502-555 | indexing one more block equals rebuilding both indexes for the longer chain |
| Indexes.IndexTxsForBlock | blockchain/chain.go:502-518 | the loop folds the block's transfers into the transaction index |
| Indexes.IndexAddressTxsForBlock | blockchain/chain.go:520-555 | the loop folds the block's transfers into the address index, once for a self-transfer |
| Indexes.ReindexAllTxs | blockchain/chain.go:557-562 | the rebuilt transaction index is that of the chain |
| Indexes.ReindexAllAddressTxs | blockchain/chain.go:564-569 | the rebuilt address index is that of the chain |
| Indexes.TxIndexMeaning | blockchain/chain.go:502-518 | an id is indexed if and only if some posted transfer has it |
| Indexes.AddressIndexMeaning | blockchain/chain.go:520-555 | an address's entries are exactly its transfers, in chain order |
| Indexes.TxByID | blockchain/chain.go:482-500 | succeeds exactly for transfers on the chain and returns one with that id and its place |
| Indexes.EveryTransferIsFound | blockchain/chain.go:482-518 | absent collisions every transfer of an accepted chain is indexed at its own place |
| Indexes.AddressTxs | blockchain/chain.go:573-605 | the page loop returns the page of the newest-first history |
| Indexes.PageSplits | blockchain/chain.go:573-605 | a page is the next stretch of the history, 50 entries unless a limit is given and 200 at most, and more is reported exactly when something is left |
| Indexes.EntryMeaning | blockchain/chain.go:520-556 | an entry exists exactly for a transfer with id and sender, and tells these, its place, recipient, amount, fee and nonce |
| Indexes.PagingIsComplete | blockchain/chain.go:571-605 | following cursors yields the full history newest-first, each entry once, for any limit |
| PathRules.ReplayPath | blockchain/forks.go:176-218 | the validation loop equals the replay function |
| PathRules.AcceptedHeader | blockchain/forks.go:180-209 | every block of an accepted path passed the header rules on the blocks before it |
| PathRules.ReplayValue | blockchain/forks.go:176-218 | accepted state and work are the ledger replay and the summed work |
| PathRules.ClockOnlyRejects | blockchain/time_rules.go:26-31 | the clock never changes an accepted view; without future timestamps it accepts what no clock would |
| PathRules.AcceptanceIsStable | blockchain/time_rules.go:26-31 | a path accepted once is accepted at another clock, with the same view, if and only if its timestamps are within that clock's drift bound; so at every later clock when neither bound wraps int64 |
| PathRules.LastClockRejects | blockchain/time_rules.go:26-31 | at the last int64 a positive drift wraps the bound, and every chain whose second block has a non-negative timestamp is rejected |
| PathRules.HeightIsIndex | blockchain/forks.go:186-189 | on an accepted path without a second height zero, block i has height i |
| PathRules.ChainMedian | blockchain/time_rules.go:34-56 | on an accepted chain the median past is the middle timestamp of its window, 11 blocks unless configured, and at most the parent's |
| PathRules.ChainDifficulty | blockchain/difficulty.go:115-192 | with retargeting every block's bits stay in range and within one step of its parent's |
| PathRules.ChainBits | blockchain/difficulty.go:115-176 | with retargeting the bits of every block are the next bits computed from the blocks before it |
| PathRules.FirstWindowKeepsBits | blockchain/difficulty.go:129-132 | with retargeting every block up to the first full window has the bits of genesis |
| PathRules.OneOutweighs | blockchain/work.go:5-15 | a block with j bits more outweighs any fewer than 2^j blocks on the same parent, and ties with exactly 2^j of them |
| PathRules.AcceptedIff | blockchain/forks.go:176-216 | a path is accepted, the wall clock aside, if and only if it starts at height 0 with no parent, every later block has the next height, its parent's hash, the version of its height, a time past parent and median and, with retargeting, the next bits, and the ledger replays |
| TimeRules.MedianTimePast | blockchain/time_rules.go:34-56 | the window loop and sort give the median of the window |
| TimeRules.ValidateBlockTime | blockchain/time_rules.go:9-32 | increasing, above the median past, not beyond the drift bound, in that order |
| TimeRules.MedianIsMiddle | blockchain/time_rules.go:34-56 | with increasing timestamps the median is the middle block of the window, and never above the parent's |
| TimeRules.SortFacts | blockchain/time_rules.go:54 | the sort is an ordered permutation |
| Difficulty.NextBitsStep | blockchain/difficulty.go:115-167 | the next bits are in range and within one maximum step of the parent's |
| Difficulty.NextBitsCarries | blockchain/difficulty.go:115-132 | before a full window, and without retargeting, the parent's bits carry over, clamped into range; the first block, and without retargeting a parent with no bits, take those of genesis |
| Difficulty.ClampMeaning | blockchain/difficulty.go:178-192 | bits out of range become the nearest bits in range |
| Difficulty.ExpectedSpanMeaning | blockchain/difficulty.go:140-147 | the expected span is window times seconds per block, at least one of each, in int64 |
| Difficulty.MeasuredSpanMeaning | blockchain/difficulty.go:134-138 | the measured span is the time across the last window, at least one second, in int64 |
| Difficulty.RetargetDirection | blockchain/difficulty.go:134-166 | a window in under half its time raises the bits by one step, one in over twice its time lowers them, within the range; any other keeps them; for four expected spans that fit int64 and a step that does not wrap uint32 |
| Difficulty.RaiseRaisesIff | blockchain/difficulty.go:156-166 | a raise never lowers the bits if and only if the uint32 cast does not wrap or the bits are at their least |
| Difficulty.HugeStepLowers | blockchain/difficulty.go:156-166 | under parameters a genesis file may carry, a window mined too fast lowers the bits from 2 to 1 |
| Difficulty.SpanClampIsHarmless | blockchain/difficulty.go:148-161 | clamping the span never changes raise, keep or lower if and only if the wrapped quadruple is at least half the expected span |
| Difficulty.OrdinaryWindows | blockchain/difficulty.go:144-154 | spans whose quadruple fits int64 meet that condition |
| Difficulty.HugeWindowFails | blockchain/difficulty.go:148-166 | under parameters a genesis file may carry, a window mined at the intended pace raises the bits |
| Pow.RunPow | blockchain/pow.go:24-40 | the search returns what its loop does: at the first nonce that solves the block or fails to encode, that nonce and hash or the error |
| Pow.SearchEndsIff | blockchain/pow.go:24-40 | the iterated turn of the wrapping nonce loop returns if and only if some nonce stops it, and then on the turn of the first |
| Pow.MinedPowIsValid | blockchain/pow.go:42-55 | a block sealed with a found nonce validates |
| Pow.WorkPositive | blockchain/work.go:5-15 | nonzero bits add positive work |
| Pow.WorkMeaning | blockchain/work.go:5-15 | work times target is 2^256, so each further bit doubles the work |
| Pow.WorkAtEnds | blockchain/work.go:5-15 | zero bits are no work, and bits past 256 count as 256 |
| Pow.TargetMeaning | blockchain/pow.go:18-22 | a hash meets the target if and only if its value times the work of the bits is below 2^256 |
| Pow.ValidatePowIff | blockchain/pow.go:42-55 | validation passes if and only if the header encodes, its hash is the stored one if there is one, and meets the target |
| TxRules.VerifyTx | blockchain/types.go:171-204 | an accepted transaction has chain id, amount and recipient; a transfer also key, nonzero nonce and id; a coinbase no fee or nonce |
| TxRules.VerifyTxIff | blockchain/types.go:171-204 | a transaction is accepted if and only if it is a coinbase with amount, recipient, chain id and neither fee nor nonce, or a transfer with these, a nonce, a 32-byte key and a 64-byte signature that verifies over its bytes at that height |
| Mempools.IndexIsDetermined | blockchain/mempool.go:341-366 | the sender-and-nonce index is a function of the entries, whatever operations led to them |
| Mempools.OnePerNonce | blockchain/mempool.go:171-178 | at most one entry per sender and nonce |
| Mempools.Mempool.constructor | blockchain/mempool.go:62-72 | an empty coherent pool; a size that is not positive becomes the default |
| Mempools.Mempool.WithSize | blockchain/mempool.go:39-47 | an empty coherent pool of the given size |
| Mempools.Mempool.AddWithTxID | blockchain/mempool.go:149-192 | files under the given id or the transaction's own; refused exactly in the listed cases with nothing changed; a full pool first gives up one cheapest entry and its later nonces |
| Mempools.Mempool.ReplaceByFeeWithTxID | blockchain/mempool.go:202-243 | under the given id or the transaction's own, only a higher fee replaces; exactly the sender's entries from that nonce on go, each id reported once |
| Mempools.ChooseKey | blockchain/mempool.go:149-162 | the caller's id unless blank, else the transaction's id under the parameters, legacy for the zero ones |
| Mempools.Mempool.RemoveLocked | blockchain/mempool.go:348-366 | exactly one entry goes and both maps stay in bijection |
| Mempools.Mempool.RemoveMany | blockchain/mempool.go:251-257 | exactly the listed entries go |
| Mempools.Mempool.LowestFee | blockchain/mempool.go:305-315 | an entry of least fee, or none exactly when every fee is the largest uint64 |
| Mempools.Mempool.EvictWithDependents | blockchain/mempool.go:317-339 | the entry and every later nonce of its sender go, nothing else, under deletion while ranging |
| Mempools.Mempool.EvictBySenderNonce | blockchain/mempool.go:368-383 | the sender's entries from a nonce on go and are reported once each |
| Mempools.Mempool.EntriesSortedByFeeDesc | blockchain/mempool.go:269-278 | every entry once, each before all of lower fee, and at equal fee before all received later |
| Mempools.DependentsMeaning | blockchain/mempool.go:317-339 | eviction with dependents takes the entry and the same sender's entries of later nonces, and no other |
| Mempools.PoolIdIsChainId | blockchain/mempool.go:150-160 | under the node's parameters the pool files a transaction under its id on the chain at that height |
| Mempools.Mempool.PendingForSender | blockchain/mempool.go:280-292 | exactly the sender's entries, by strictly rising nonce |
| Selection.SelectMempoolTxs | blockchain/chain.go:694-754 | the greedy selection over the fee-sorted pool from the node's accounts, 100 picks at most unless a limit is given |
| Selection.SelectionReplays | blockchain/chain.go:712-752 | the ledger accepts the picks in order and ends where the simulation ended |
| Selection.SelectionIsExact | blockchain/chain.go:712-752 | while there is room the next entry is picked if and only if the ledger would accept it after the picks before it |
| Selection.TransfersAfterCredit | blockchain/chain.go:649-688 | the picks pass after the coinbase credit if and only if the miner's own stay covered, and credit and transfers commute |
| Selection.SelectedBlockIsValid | blockchain/chain.go:607-690 | the block of coinbase and picks is valid exactly when coinbase and size rules pass and the miner stays covered |
| Selection.MiningASelection | blockchain/chain.go:253-357 | where the store accepts, mining a selection succeeds exactly when no early guard stops it and the miner stays covered |
| Selection.MiningASelectionIff | blockchain/chain.go:253-343 | over any store, mining a selection succeeds exactly when also the canonical chain holds the parent and the append commits |
| Selection.MinerRefusesPicks | blockchain/chain.go:273-291 | the miner's checks pass a selection exactly when every pick is for this chain and pays a fee |
| Selection.OthersAreCovered | blockchain/chain.go:649-688 | picks not sent by the miner are always covered |
| Selection.FittingSupplyIsCovered | blockchain/chain.go:649-688 | a supply that fits 64 bits with the coinbase on top is always covered |
| Selection.RichMinerIsNotCovered | blockchain/chain.go:649-688 | a transfer of a miner with 2^64 - 1 units passes before a unit of coinbase and fails after it |
| Witnesses.PickedButNotMined | blockchain/chain.go:694-754 | a fresh node, from a genesis it may start with, that picks its one pending transfer, passes every early guard and then lacks the funds |
| Witnesses.PickedButRefused | blockchain/chain.go:273-291 | a fresh node that picks a transfer without a fee, or for another chain, and refuses it with that error, unchanged |
| Headers.HeaderCommitsToTxs | blockchain/encoding_bin.go:106-156 | two blocks with equal binary headers that ledgers accept carry the same signed fields in the same order, absent collisions |
| Commitments.TxsEffect | blockchain/chain.go:649-688 | an accepted run of transactions moves every account by what it pays, takes and sends, modulo 2^64 |
| Commitments.SameHeaderSameAccountsIff | blockchain/encoding_bin.go:32-156 | two accepted blocks with equal binary headers leave every account alike if and only if they pay every address string the same, modulo 2^64, absent collisions |
| Commitments.SameHeaderSameState | blockchain/encoding_bin.go:32-156 | equal headers and equal address strings give the same ledger result |
| Commitments.RedirectedBlock | blockchain/encoding_bin.go:32-50 | the last transfer of any accepted block, paid to another string for the same hash, keeps the transaction root and the header at every nonce, is accepted, and leaves other accounts |
| Commitments.RedirectedIsAdmitted | blockchain/forks.go:16-56 | such a block is admitted with the block |
| Commitments.CapitalsRedirect | blockchain/encoding_bin.go:32-50 | the capitals of an address with a letter are such a string |
| Headers.RootsBindCount | blockchain/types.go:242-252 | accepted blocks of different lengths have different Merkle roots, absent collisions |
| Headers.NoncesRise | blockchain/chain.go:661-684 | within an accepted block a sender's nonces rise, so no transaction stands in it twice |
| Headers.HeaderBytesNameParent | blockchain/types.go:273-332 | equal headers, of either encoding, have equal heights and parents, as mining relies on |
| Headers.TxRootLegacy | blockchain/types.go:223-234 | one hash over the signing hashes in order, or the first encoding error |
| Headers.MerkleRootV2 | blockchain/types.go:242-252 | the Merkle root of the signing hashes, or an error for none |
| Headers.LegacyRootBinding | blockchain/types.go:223-234 | the legacy root input determines the hashes, whatever their number |
| Merkle.MerkleRoot | blockchain/merkle.go:17-41 | the level loop gives the root, with errors for no leaves and wrong sizes |
| Merkle.SmallTrees | blockchain/merkle.go:17-41 | the roots of one, two and three leaves hash by hash: leaves behind a zero byte, nodes behind a one, a third leaf paired with itself |
| Merkle.MerkleProof | blockchain/merkle.go:46-94 | same root, a branch of the tree's height whose sides spell the index, and a climb from the leaf that ends at the root |
| Merkle.VerifyMerkleProof | blockchain/merkle.go:98-129 | accepts exactly when the climb ends at the expected root, whatever the index, which only has to be non-negative; errors exactly for malformed input |
| Merkle.HeightIsCeilLog2 | blockchain/merkle.go:62-92 | the branch length is the ceiling of the binary logarithm |
| Merkle.MerkleSound | blockchain/merkle.go:98-146 | a branch of any length accepted against the root of a list has the tree's height and proves the leaf at the position its sides spell, absent collisions |
| Merkle.MerkleRootBinding | blockchain/merkle.go:17-41 | lists of equal length with equal roots are equal, absent collisions |
| Merkle.MerkleRootRepeats | blockchain/merkle.go:17-41 | of two lists of different length with equal roots the longer repeats a leaf, absent collisions |
| Merkle.OddLeafDuplicated | blockchain/merkle.go:28-39 | doubling the last of three leaves keeps the root, so equal length is needed |
| Merkle.ReduceLevel | blockchain/merkle.go:28-39 | the inner loop gives the next level with the odd node doubled |
| TxCodec.TxSigningPreimage | blockchain/encoding_bin.go:52-104 | the written bytes are the signing bytes, with an error exactly for malformed fields |
| TxCodec.SignedBytesUniquelyDecodable | blockchain/encoding_bin.go:52-104 | signing bytes followed by anything read back as one signed view only |
| TxCodec.TxPreimageInjective | blockchain/encoding_bin.go:52-104 | equal preimages mean equal signed fields |
| Layouts.TransferLayout | blockchain/encoding_bin.go:52-104 | which transfer field is at which offset of the signed bytes, and in which width and byte order |
| Layouts.CoinbaseLayout | blockchain/encoding_bin.go:52-104 | the same for a coinbase |
| Layouts.SignableIff | blockchain/encoding_bin.go:52-104 | a transaction encodes if and only if it is a coinbase or a transfer with a 32-byte key, has a chain id, and its recipient names 32 bytes |
| TxCodec.BlockHeaderPreimage | blockchain/encoding_bin.go:106-156 | the written bytes are the binary header, with an error exactly for malformed fields |
| TxCodec.HeaderInjective | blockchain/encoding_bin.go:106-156 | a binary header determines every field in it |
| Layouts.HeaderLayout | blockchain/encoding_bin.go:106-156 | which header field is at which of the 129 bytes, and in which width and byte order; no parent is 32 zero bytes |
| Layouts.HeaderedIff | blockchain/encoding_bin.go:106-156 | a header encodes if and only if the time is positive, parent and hash have 32 bytes or none, and the miner names 32 bytes |
| Encoding.WriteUleb128 | blockchain/encoding_bin.go:18-30 | the shift loop appends the ULEB128 form |
| Encoding.UlebRoundTrip | blockchain/encoding_bin.go:18-30 | reading a ULEB128 number back gives the number and what followed it |
| Encoding.UlebPrefixFree | blockchain/encoding_bin.go:18-30 | no ULEB128 form is a prefix of another's continuation |
| RulesHash.MarshalBinary | blockchain/rules_hash.go:37-97 | the written bytes are the parameter fields in order |
| Layouts.RulesLayout | blockchain/rules_hash.go:37-97 | which parameter is at which of the 93 bytes, and in which width and byte order |
| RulesHash.MarshalIdentifiesRules | blockchain/rules_hash.go:37-97 | equal bytes if and only if the parameters agree up to windows modulo 2^32 |
| RulesHash.MarshalInjective | blockchain/rules_hash.go:37-97 | injective on windows that fit 32 bits |
| RulesHash.WindowTruncationCollides | blockchain/rules_hash.go:37-97 | two different parameter sets with the same bytes |
| Checkpoints.CheckpointSystem.CreateCheckpoint | blockchain/checkpoint.go:43-61 | the checkpoint is stored at its height and latest is the maximum |
| Checkpoints.CheckpointSystem.AddCheckpoint | blockchain/checkpoint.go:63-79 | a later timestamp replaces, other heights stay, latest is the maximum |
| Checkpoints.CheckpointSystem.BinaryEncode | blockchain/checkpoint.go:202-226 | latest, then one record per stored height in order, as the turns of the loop give them |
| Checkpoints.CheckpointSystem.BinaryDecode | blockchain/checkpoint.go:228-276 | fails exactly on short input with nothing changed; otherwise the parsed records overlay the table, each under its own height |
| Checkpoints.CheckpointRoundTrip | blockchain/checkpoint.go:202-276 | decoding an encoded table restores latest, and restores heights, hashes and roots if and only if every field fits and no height is above latest |
| Checkpoints.SavedIsLoaded | blockchain/checkpoint.go:202-276 | what a valid system saves and an empty one loads agrees on height, hash and state root at every height, under the same condition |
| Checkpoints.ShortHashIsLost | blockchain/checkpoint.go:202-276 | a checkpoint with a 31-byte hash is not what is loaded |
| Checkpoints.OlderFileLosesLater | blockchain/checkpoint.go:228-276 | a system that loads an older file keeps its later checkpoint under the older latest height, and its own file then lacks it |
| Checkpoints.OlderFileTable | blockchain/checkpoint.go:202-226 | any table whose entries all fit, with one above latest, is not what is loaded |
| Checkpoints.EncoderEndsIff | blockchain/checkpoint.go:210-222 | the iterated turn of the uint64 height loop passes latest if and only if latest is not the last uint64, and then with the bytes of the file |
| Checkpoints.DecodedIsEncodable | blockchain/checkpoint.go:228-276 | whatever is decoded can be encoded again |
| Hex.EncodeInjective | blockchain/forks.go:70-80 | hex keys are equal only for equal hashes |
| Hex.EncodeKeepsOrder | blockchain/forks.go:104 | comparing hex strings is comparing hash bytes |
| Words.LexMeaning | blockchain/forks.go:104 | the tie-break order is decided at the first byte that differs, smaller first, a proper prefix before its extensions |
| Hex.CaseIgnored | blockchain/encoding_bin.go:32-38 | decoding does not tell the case |
| Addresses.GeneratedIsValid | blockchain/address.go:16-64 | a generated address validates and names the hash of its key: NEO, then version 0, the hash and four checksum bytes in hex, 77 characters |
| Addresses.AddressesSeparate | blockchain/address.go:16-30 | two keys have the same address exactly when their hashes agree |
| Addresses.CapitalsDecodeAlike | blockchain/address.go:32-64 | an address and its capitals are equally valid and name the same hash |
| Lru.LRU.Set | internal/cache/lru.go:35-51 | the recency list is updated to the new pair in front, with the last one dropped when full |
| Lru.LRU.Get | internal/cache/lru.go:53-70 | returns the held value, moves it to the front, counts the hit or miss |
| Lru.LRU.Delete | internal/cache/lru.go:72-80 | exactly that key leaves the recency list |
| Lru.LRU.Clear | internal/cache/lru.go:82-94 | the recency list becomes empty |
| Lru.LRU.EvictOldest | internal/cache/lru.go:106-117 | the last of the list and its map entry go |
| Lru.LRU.constructor | internal/cache/lru.go:24-33 | an empty cache; a size that is not positive becomes the default |
| Lru.LruInclusion | internal/cache/lru.go:35-117 | on any trace a larger cache holds everything a smaller one holds, with the same value |
| Lru.RunTracks | internal/cache/lru.go:35-117 | after any trace the smaller recency list is a subsequence of the larger, both duplicate-free and within size |

## Left out

- HTTP, WebSocket events, P2P, CLI, UI, stratum, metrics, logging and configuration loading.
- The file formats of the store (bbolt buckets, gob) and read errors; the legacy gob store, which keeps the canonical chain only. A write is one transaction that commits or not.
- Disks.BoltStore.RewriteCanonical: takes chains numbered from zero, since entries are keyed by height; every path AddBlock follows is.
- Cryptography and JSON encodings: function parameters with the properties stated where they are used. The rules take address validation as a parameter too; `Addresses` models the program's own.
- Genesis file parsing, genesis validation against a stored chain, and the rules-hash lock of a data directory.
- The rejection of a nil block or a nil map: Dafny values are never nil.
- The eviction callback of the LRU cache, and its size and statistics readers.
- Sharing of block objects between the chain, the block map and callers: blocks are values.
- Go slices and heights are unbounded up to uint64; memory limits are not modelled.
- Interleavings inside one call: `AuditChain` copies the chain and later replays under a second lock, `SelectMempoolTxs` reads accounts and height under separate locks, and LRU `Get` looks up and moves under separate locks; each is one step here.
- Chain.Blockchain.MineTransfers: presupposes a nonce that stops the search; without one the program does not return (`SearchEndsIff`).
- Pow.RunPow: presupposes a nonce that stops the search; without one the loop does not end (`SearchEndsIff`).
- Runs.RunInvariant: in a run the hash of a mined block is not stored yet, as is so on the best tip absent header collisions (`LeadingMinesNew`), and a restart that does not load ends the run; a sound node always loads (`AuditsAndRestarts`).
- Difficulty.RetargetDirection: excludes steps and spans that wrap their words; exactly when those change the decision is in `RaiseRaisesIff` and `SpanClampIsHarmless`.
- Selection.MiningASelection: takes a store that accepts the block; `MiningASelectionIff` does not.
- Checkpoints.CheckpointSystem.BinaryEncode: excludes latest = 2^64 - 1, where the height loop of the program does not end (`EncoderEndsIff`).
- TxCodec.TxSigningPreimage: excludes data of 2^63 bytes or more, which a Go string cannot hold.
- A block whose hash has a length other than 0 or 32 is refused here for its proof of work rather than for its header encoding; both refuse it.
- Checkpoint pruning, finality and reorg guards built on checkpoints, fast sync and state snapshots.
- Spam and AI filters: a verdict parameter. Governance, faucet, airdrop, DNS registry, recovery, multisig and the VM are not modelled.
- The packages under `internal/`, except the LRU cache.
