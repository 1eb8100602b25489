# A Dafny model of arb-geth's chain core

This project models, and proves properties of, the parts of arb-geth (the Arbitrum fork of go-ethereum) that keep
several indexes, counters and caches in agreement with a hash-linked block tree while heads move, states are collected
and events are delivered.

| file | models |
|---|---|
| Words.dfy | unsigned 64-bit arithmetic |
| BlockTree.dfy | the store of blocks by hash, ancestors, paths and total difficulty |
| Reorg.dfy, BlockChain.dfy | canonical chain maintenance: reorgs, head writes, the number index and the transaction index |
| HeaderChain.dfy | header insertion, header reorgs, rewinds of the header chain, ancestor lookup |
| Rewind.dfy | the loop that rewinds the head block to one whose state is available |
| TrieGc.dfy | skipped state commits of archive nodes and garbage collection of states |
| ChainIndexer.dfy | the section indexer, as a step system against a chain that may switch at any read |
| CaseList.dfy, Feed.dfy | event feeds: the aliased slice of select cases, and the delivery protocol |
| Ledger.dfy, GasPool.dfy, StateTransition.dfy, StateProcessor.dfy | gas and fee accounting of a message and of a block |
| RecreateState.dfy, RecordingDb.dfy | re-execution of ancestors to recreate a state, and reference counting of states |
| HashFn.dfy | the block hash lookup of the EVM |
| HdPath.dfy | the derivation path parser and printer |

Conventions. A block is identified by its hash, and the zero hash means "no entry", as in the database accessors. A
database is a map, a batch is written at once, and disk writes succeed. Objects that the Go code mutates are classes.
Code that can fail is not given preconditions that rule the failure out: its contract says `old(Consistent()) ==> ...`
for a consistent database, and what an error leaves unchanged for any database. What the outside world answers (clocks,
contexts, fork choice, the chain seen by a read, the EVM and the Arbitrum hooks) is a parameter, and the contracts hold
for all its values. Unsigned 64-bit arithmetic is written out with `Wrap` wherever a sum or a difference can wrap.

Where a property that the code or its comments suggest does not hold, the project keeps the code and proves exactly when
the property holds, with a concrete input on which it fails where that is not plain from the condition:

- `ReorgToOldBlock` leaves the index on the new head if and only if the new head is an ancestor of the old one. It
  writes the head before it reorganises, and the reorg deletes that entry again.
- `setHead` to a number leaves no header above the target if and only if the head was above the target or nothing was.
- `WriteHeaders` fills its caches before it asks whether to abort; after an abort the caches agree with the database if
  and only if nothing was missing.
- `GetAncestor` asked about the zero hash above the head answers from the canonical chain.
- The rewind loop can report a root as found and stay above it: because the gas limit is reached, or because genesis and
  everything up to the root's block have lost their state. For every gas limit and pivot the project proves exactly when
  the root is found and exactly when the head is then at or below it. A start block that is missing ends on genesis
  without recommitting its state.
- A restarted indexer forgets its checkpoint, and adding the same one again is ignored. Its sections are still chained
  from the first one on if and only if those below the checkpoint are too; what holds over every run, restarts included,
  is proved for the sections from the highest checkpoint ever added.
- The bounds documented for skipped commits hold exactly if their own limit is set or neither limit is.
- A forced refund of more gas than was used mints money: the base fee law holds if and only if nothing is paid at all,
  the forced refund is within the gas used, or the refunds together wrap around.
- A context cancelled just after a state was found leaves a reference behind in the recording database; nothing else does.
- The L2 gas meter of the state search counts modulo 2^64: a state found within the limit has its blocks' gas within it
  if and only if that gas is below 2^64.
- The empty derivation path prints to a text that the parser refuses.

## Model

| member | source | states |
|---|---|---|
| `Reorg.Descend` | core/blockchain.go:2209-2222 | the walk down to a number fails only on a gap; on a tree it returns the chain segment it passed, in order |
| `Reorg.FindFork` | core/blockchain.go:2202-2253 | on a tree it never errors and finds the highest common ancestor, with both branches above it and exactly the old branch's transactions |
| `CanonicalChain.StaleNumbers` | core/blockchain.go:2308-2314 | the numbers to delete are exactly those between the kept block and the first gap |
| `CanonicalChain.IndexAfterReorg` | core/blockchain.go:2282-2317 | writing the new branch without its head and deleting the stale numbers leaves exactly the path to the landing block |
| `CanonicalChain.LookupAfterReorg` | core/blockchain.go:2284-2299 | if no transaction repeats, the transaction index stays exact although the head's own transactions are not among the added ones |
| `CanonicalChain.HeadCompletesLookup` | core/blockchain.go:968-976 | writing the new head after the reorg makes the transaction index exact for its chain |
| `CanonicalChain.BlockChain.constructor` | core/blockchain.go:968-989 | a chain of genesis alone is consistent and its transaction index exact |
| `CanonicalChain.BlockChain.WriteHeadBlock` | core/blockchain.go:968-989 | the whole new state: one index entry, the block's transactions, and all six head markers |
| `CanonicalChain.BlockChain.WriteBranch` | core/blockchain.go:2282-2292 | the new branch, lowest first and without its head, replaces the index entries above the fork; the added transactions are exactly the written ones |
| `CanonicalChain.BlockChain.ApplyFork` | core/blockchain.go:2282-2317 | from an index of the old chain, both indexes end up exact for the landing block |
| `CanonicalChain.BlockChain.Reorg` | core/blockchain.go:2193-2317 | never errors on a tree, leaves both indexes exact for the landing block, and changes nothing on an error |
| `CanonicalChain.BlockChain.WriteKnownBlock` | core/blockchain.go:1411-1420 | the index is exactly the path from genesis to the block with nothing above it; the transaction index is exact if and only if the chain repeats no transaction |
| `CanonicalChain.BlockChain.SetCanonical` | core/blockchain.go:2377-2397 | the same for a stored block, succeeding if and only if its state is there or is recovered |
| `CanonicalChain.BlockChain.WriteBlockWithState` | core/blockchain.go:1424-1449 | each outcome exactly: unknown parent, block and difficulty stored but no state when the commit fails, or both stored; every index stays as it was |
| `CanonicalChain.BlockChain.WriteBlockAndSetHead` | core/blockchain.go:1553-1576 | succeeds exactly when parent, state commit and fork choice allow; the head moves if and only if the choice says so, and the index is then its path |
| `CanonicalChain.BlockChain.ReorgToOldBlock` | core/blockchain_arbitrum.go:40-59 | the index is the path to the new head if and only if that is an ancestor of the old head |
| `CanonicalChain.SiblingIsNotAncestor` | core/blockchain_arbitrum.go:48-53 | a consistent database with a stored block on which ReorgToOldBlock misses the new head |
| `HeaderChains.UnknownStaysUnknown` | core/headerchain.go:231-244 | after the first unknown header of a linked batch every header is unknown, so not looking any more loses nothing |
| `HeaderChains.CrossLink` | core/headerchain.go:157-175 | the backward walk writes exactly the first header's ancestors above the highest canonical one, and never errors on a tree |
| `HeaderChains.IndexAfterSwitch` | core/headerchain.go:148-188 | deletions, cross link and batch together leave exactly the path to the last header |
| `HeaderChains.HeaderChain.PlanReorg` | core/headerchain.go:143-188 | the gathered batch is the path to the last header, whether it extends, shortens or switches forks |
| `HeaderChains.HeaderChain.Reorg` | core/headerchain.go:134-198 | never errors on stored headers, leaves a consistent chain ending on the last header, and an error leaves everything unchanged |
| `HeaderChains.HeaderChain.GetTd` | core/headerchain.go:422-434 | the cache never changes the answer |
| `HeaderChains.GatherHeaders` | core/headerchain.go:212-245 | the loop gathers exactly the missing headers, and their total difficulties are the sums along their ancestors |
| `HeaderChains.HeaderChain.WriteHeaders` | core/headerchain.go:204-256 | stores exactly the missing headers, returns their count and keeps total difficulty exact; error cases exactly; caches after an abort exactly |
| `HeaderChains.HeaderChain.WriteHeadersAndSetHead` | core/headerchain.go:265-301 | status and head move exactly when the choice says so and the last header is not already canonical |
| `HeaderChains.LeftoverNumbers` | core/headerchain.go:626-632 | on a tree the upward scan stops at no gap, so it finds every number above the head |
| `HeaderChains.DoomedData` | core/headerchain.go:624-651 | one round dooms exactly the headers of all forks at the head's number, and in the first round all above it |
| `HeaderChains.RewoundState` | core/headerchain.go:590-652 | dropping everything above an ancestor of the head keeps the tree, the difficulties and the index consistent |
| `HeaderChains.HeaderChain.SetHead` | core/headerchain.go:559-661 | terminates; a number target ends the chain there or leaves it; a timestamp target ends it on the highest header not younger, everything above being younger; exactly the headers of all forks above are gone; none above a number target remains if and only if the head was above it or there was none |
| `HeaderChains.ForkAboveHead` | core/headerchain.go:590-591 | a consistent header chain on which setHead leaves a header above its target |
| `HeaderChains.WalkBack` | core/headerchain.go:397-417 | the canonical shortcut gives the true ancestor, and uses up exactly one budget step per non-canonical block |
| `HeaderChains.HeaderChain.GetAncestor` | core/headerchain.go:386-418 | exact success condition; every answer for a stored header is its true Nth ancestor; every answer for an unknown hash, with the zero hash anomaly exactly |
| `CaseLists.CaseList.FindCase` | event/feed.go:213-220 | the first position of the channel, or -1 exactly when it is absent |
| `CaseLists.CaseList.Deactivate` | event/feed.go:228-232 | swaps inside the shared array and shortens only the prefix |
| `CaseLists.CaseList.Remove` | event/feed.go:172-177 | deletes from the full list in place; the prefix shrinks exactly if the case was in it and otherwise still shows the same cases |
| `CaseLists.DeleteInPlace` | event/feed.go:223-225 | shifts the tail of the backing array and leaves the front alone |
| `Feeds.PendingIsFound` | event/feed.go:116-122 | a pending remover always finds its channel, past the removeSub slot |
| `Feeds.ActionKeeps` | event/feed.go:72-204 | every step of Subscribe, Unsubscribe and Send keeps the invariant |
| `Feeds.EveryRunIsBalanced` | event/feed.go:72-204 | in every interleaving inbox plus sendCases are the outstanding subscriptions, pending removers never exceed sendCases, and no delete sees index -1 |
| `Feeds.SubscriptionsFollowRun` | event/feed.go:72-204 | after every run the subscriptions are those of its Subscribe calls in order; each is live if and only if its Unsubscribe was not called, past the inbox check if and only if that step was taken, and gone after a removal |
| `Feeds.MergeTakesAll` | event/feed.go:134-137 | a Send takes on every subscription outstanding when it merges the inbox |
| `Feeds.SendOutcome` | event/feed.go:146-190 | in every interleaving each merged case was delivered to exactly once or removed before; survivors were all served and are what sendCases holds; the result is the number of deliveries |
| `Feeds.SendCanStep` | event/feed.go:128-196 | in every reachable state the Send that holds the lock can take a step or waits for at least one receiver |
| `Feeds.SendCounts` | event/feed.go:146-190 | every successful send of a Send is counted exactly once, and every removal it serves |
| `Feeds.ReadySendServesAll` | event/feed.go:128-196 | from every reachable state with the lock free, a Send whose receivers are ready serves every outstanding subscription exactly once, returns their number and frees the lock |
| `Feeds.StepRanks` | event/feed.go:155-182 | every step of the send loops lowers the rank, and no other step raises it |
| `Feeds.SendTerminates` | event/feed.go:155-182 | whatever subscribers and removers do, the loops take at most rank more steps |
| `Feeds.RemoverProgresses` | event/feed.go:116-123 | from every reachable state with a pending remover the Send alone, without a receiver and in a bounded number of steps, comes to where the remover can act |
| `ChainIndexers.ReorgIsExact` | core/chain_indexer.go:248-273 | a reorg notice for the last common block keeps exactly the sections that the new chain shares |
| `ChainIndexers.HeadMakesKnown` | core/chain_indexer.go:276-299 | a new head makes known exactly the sections whose last block is confirmed, unless the checkpoint is not confirmed or does not match |
| `ChainIndexers.ReorgLeaves` | core/chain_indexer.go:248-273 | exactly which sections a reorg leaves known, stored and cascaded |
| `ChainIndexers.CheckpointGates` | core/chain_indexer.go:130-144 | a checkpoint beyond the index stands for all sections up to its own, and lets nothing become known before its section is confirmed with its head |
| `ChainIndexers.VerifyForgets` | core/chain_indexer.go:422-429 | the roll back forgets exactly the sections from where it ends on, whatever the chain does |
| `ChainIndexers.NextHeadExtends` | core/chain_indexer.go:397-410 | one more header, from whatever chain is canonical then, extends the run of parents |
| `ChainIndexers.RecordedKeeps` | core/chain_indexer.go:350-353 | recording a section only if the section before it still ends where processing started keeps all heads chained |
| `ChainIndexers.CheckpointedKeeps` | core/chain_indexer.go:130-144 | a checkpoint added at any time, also during processing, keeps the heads from the highest checkpoint on chained |
| `ChainIndexers.ActionKeeps` | core/chain_indexer.go:243-429 | every step of the update loop and of everything that interleaves with it, restarts included, keeps the invariant |
| `ChainIndexers.SectionsContinue` | core/chain_indexer.go:304-417 | in every run from an empty database, with chain switches and restarts, each stored head from the highest checkpoint on is the section-length descendant of the one before |
| `ChainIndexers.VerifiedSectionsAreCanonical` | core/chain_indexer.go:419-429 | after only the last head was checked, every stored section from the highest checkpoint on, and the one before, ends on the hash canonical at that read |
| `ChainIndexers.VerifyIsExact` | core/chain_indexer.go:422-429 | while the chain stands still, exactly the sections that left it are dropped |
| `ChainIndexers.ErrorsFail` | core/chain_indexer.go:388-417 | a missing header and every error of the backend make the section fail |
| `ChainIndexers.FailureRests` | core/chain_indexer.go:363-368 | after a section that could not be recorded the loop rests until more becomes known |
| `ChainIndexers.UpdateRecords` | core/chain_indexer.go:319-368 | one round of the update loop on a chain that stands still and has the next section records it with its canonical head |
| `ChainIndexers.CatchesUp` | core/chain_indexer.go:304-384 | on such a chain as many rounds as sections are missing leave every known section stored with its canonical head |
| `ChainIndexers.ReloadIsExact` | core/chain_indexer.go:471-476 | an index loaded after a restart is chained from its first section on if and only if the sections below the highest checkpoint are |
| `ChainIndexers.CheckpointSurvivesRestart` | core/chain_indexer.go:130-144 | a checkpoint on a chained index survives a restart if and only if it is for the next section and continues the last head |
| `ChainIndexers.RestartForgetsCheckpoint` | core/chain_indexer.go:134-137 | a run in which the checkpoint is forgotten, adding it again is ignored, and three stored sections have no heads |
| `ChainIndexers.ChainIndexer.constructor` | core/chain_indexer.go:103-119 | loads the stored count and heads, and no checkpoint |
| `ChainIndexers.ChainIndexer.SetValidSections` | core/chain_indexer.go:479-491 | the loop removes exactly the heads from the new count on |
| `ChainIndexers.ChainIndexer.VerifyLastHead` | core/chain_indexer.go:422-429 | the loop is the roll back, one read of the chain per round |
| `ChainIndexers.ChainIndexer.NewHead` | core/chain_indexer.go:243-300 | the new index for reorgs and for new heads, as ReorgLeaves and HeadMakesKnown fix it |
| `ChainIndexers.ChainIndexer.AddCheckpoint` | core/chain_indexer.go:130-144 | the new index, as CheckpointGates fixes it, or the old one if the checkpoint is not beyond it |
| `ChainIndexers.ChainIndexer.Sections` | core/chain_indexer.go:434-440 | the count and the last stored head after the roll back; a block canonical at the last read once a section above the checkpoint is stored; with none stored the number wraps |
| `ChainIndexers.ChainIndexer.BeginUpdate` | core/chain_indexer.go:319-337 | the locked part before processing is the step system's step |
| `ChainIndexers.ChainIndexer.ProcessSection` | core/chain_indexer.go:388-417 | a run that succeeds met no error and is a chain of parents over the section although each header may come from another chain; while the chain stands still it succeeds if and only if that chain covers the section and passes through the last head |
| `ChainIndexers.ChainIndexer.FinishUpdate` | core/chain_indexer.go:348-368 | the locked part after processing is the step system's step |
| `Rewind.RewindHead` | core/blockchain.go:673-760 | the loop is the rewind function, and terminates |
| `Rewind.RewindEndsOnState` | core/blockchain.go:673-760 | whatever root, gas limit and pivot, the rewind ends on a block with its state or on genesis, recommitted exactly if its state is missing, unless the start block is missing |
| `Rewind.RewindFindsNearest` | core/blockchain.go:683-760 | without a root the head is the nearest block at or below the start whose state is available, unless that lies below the pivot |
| `Rewind.WalkToRoot` | core/blockchain.go:687-760 | once a block with state was seen: the exact outcome for every gas limit and pivot |
| `Rewind.ReachesExactly` | core/blockchain.go:692-702 | the gas limit is reached if and only if the gas used less the L1 gas of the blocks looked at down to some number is, modulo 2^64, not below it |
| `Rewind.RewindPassesRoot` | core/blockchain.go:687-760 | for every gas limit and pivot: exactly when the root is reported found, exactly when the head is then at or below it and that it is then the closest one with state, which block it is otherwise, and the block number reported |
| `Rewind.GasLimitStopsAboveRoot` | core/blockchain.go:692-705 | a chain on which the gas limit exit reports the root as found and stays above it |
| `Rewind.StatelessGenesisStopsAboveRoot` | core/blockchain.go:728-747 | a chain on which, without a gas limit, the missing genesis state makes the rewind stay above the root it reports as found |
| `TrieGc.AlwaysWithin` | core/blockchain.go:1456-1478 | over every run of blocks the counters bound what was skipped since the last commit |
| `TrieGc.SkippedBlocksBounded` | core/blockchain.go:1451-1478 | the documented bound on skipped blocks holds over every run if and only if that limit is set or neither is |
| `TrieGc.SkippedGasBounded` | core/blockchain.go:1451-1478 | the same for the gas of skipped blocks |
| `TrieGc.NextCommit` | core/blockchain.go:1456-1478 | after a commit the next one comes exactly when the blocks skipped since reach their limit or their gas with the block's own exceeds its limit, or neither limit is set |
| `TrieGc.FirstCommit` | core/blockchain.go:1456-1478 | exactly which blocks of a run come before its first commit |
| `TrieGc.Collector.ArchiveCommits` | core/blockchain.go:1456-1478 | the counters and the decision to commit |
| `TrieGc.Collector.PopMatured` | core/blockchain.go:1497-1511 | what is popped has matured and has the lowest numbers; the loop stops only at an entry of lowest number that has not; references match the queue and the entry in hand |
| `TrieGc.Collector.CollectGarbage` | core/blockchain.go:1485-1536 | afterwards references match the queue again; a full node flushes exactly the canonical state at the number collected last, an archive node none |
| `TrieGc.Collector.WriteState` | core/blockchain.go:1450-1536 | over every run references to a root equal its multiplicity in the queue; what is collected is at least triesInMemory blocks below and older than the retention time, and a lowest entry that stays is not; exactly which states are committed |
| `StateTransitions.ToWordSize` | core/state_transition.go:122-128 | the rounded up word count for every unsigned 64-bit size |
| `StateTransitions.GasOfByte` | core/state_transition.go:72-119 | the price of the empty call and creation, of one more zero or other byte under each fork, and of each part of the access list |
| `StateTransitions.IntrinsicGas` | core/state_transition.go:72-119 | reports an overflow if and only if the price of the data does not fit, and otherwise the price modulo 2^64 with the access list |
| `StateTransitions.PriceSplits` | core/state_transition.go:181-184 | after London the price is the base fee plus the effective tip, also when the tip is dropped |
| `StateTransitions.RefundCapped` | core/state_transition.go:483-494 | the refund is within the counter and the quotient cap, and no message ends with more gas than it bought |
| `StateTransitions.RefundLargest` | core/state_transition.go:487-494 | no larger refund is within the counter and the cap, for every gas amount |
| `StateTransitions.FinalGasFixed` | core/state_transition.go:435-494 | both ways which gas a message ends with: the most that a fifth of the refundable gas used, or a half before London, allows |
| `StateTransitions.ForceRefundExact` | core/state_transition.go:483-494 | for every gas amount the message ends with at most its limit if and only if the forced refund fits |
| `StateTransitions.RefundFitsPlainly` | core/state_transition.go:483-494 | where no sum wraps, it fits if and only if no more is forced back than was used |
| `StateTransitions.FeeLaw` | core/state_transition.go:442-456 | what is paid and what is earned burns the base fee of the reported gas, if and only if nothing is paid or the remaining gas is within the limit |
| `StateTransitions.StateTransition.BuyGas` | core/state_transition.go:254-280 | buys the gas limit if and only if balance and pool suffice, and changes nothing otherwise |
| `StateTransitions.ObjectionExact` | core/state_transition.go:254-331 | a message may buy gas if and only if nonce, code, caps, balance and pool allow it, and the exact condition of each of the ten errors |
| `StateTransitions.RefusalExact` | core/state_transition.go:389-413 | the exact condition of each of the five errors after the purchase |
| `StateTransitions.StateTransition.PreCheck` | core/state_transition.go:282-331 | the first broken rule, as ObjectionExact fixes it, and then nothing is changed; or the purchase |
| `StateTransitions.StateTransition.RefundGas` | core/state_transition.go:483-508 | the final gas, the sender's refund, and the pool, which overflows exactly when the sum does not fit |
| `StateTransitions.StateTransition.Settle` | core/state_transition.go:435-463 | refund, tip and last hook, or the pool's overflow |
| `StateTransitions.StateTransition.Execute` | core/state_transition.go:389-463 | the exact rejection after the purchase, or the settled state |
| `StateTransitions.StateTransition.TransitionDb` | core/state_transition.go:343-481 | the verdict and the next world for every message, state and behaviour of EVM and hooks |
| `StateTransitions.AppliedExactly` | core/state_transition.go:343-481 | a message is applied if and only if every rule holds, listed in plain terms |
| `StateTransitions.AccountChanges` | core/state_transition.go:254-508 | what each account gains or loses: the sender the price of the gas not left, the recipient the tip on the gas used, with and without a dropped tip, before and after London |
| `StateTransitions.NonceAfter` | core/state_transition.go:430-431 | the nonce of the sender of a call goes up by one, and no other |
| `StateTransitions.NoReplay` | core/state_transition.go:285-297 | a call that was applied is rejected ever after, whatever rules and hooks, while the sender's nonce does not go down |
| `StateTransitions.NextChanges` | core/state_transition.go:254-508 | the steps of a message add up, account by account, to its changes in closed form |
| `StateTransitions.TransferCheckHolds` | core/state_transition.go:405-408 | after the purchase the transfer check fails only through the charging hook or a price above the cap |
| `StateTransitions.PoolOverflow` | core/state_transition.go:506-507 | the pool overflows only if the message ends with more gas than it bought |
| `StateTransitions.BurnsBaseFee` | core/state_transition.go:442-456 | EIP-1559: a message changes the total balance by minus gas used times base fee, apart from EVM and hooks, if and only if it pays nothing or the forced refund fits |
| `StateTransitions.ForcedRefundMintsMoney` | core/state_transition.go:483-498 | a world that accepts a message with one unit of forced refund too many, and holds more money afterwards |
| `StateTransitions.SenderNotOverdrawn` | core/state_transition.go:254-280 | the sender of an applied message is never below zero, after the purchase, the call and the settlement |
| `GasPools.GasPool.AddGas` | core/gaspool.go:29-35 | fails exactly on overflow |
| `GasPools.GasPool.SubGas` | core/gaspool.go:39-45 | fails exactly when the pool is too small, and then changes nothing |
| `StateProcessors.ApplyMessage` | core/state_transition.go:197-199 | the verdict and the next world |
| `StateProcessors.PoolAfterMessage` | core/state_transition.go:266-271 | an applied message returns to the pool all but the gas it used, which is within its limit |
| `StateProcessors.PoolConserved` | core/state_processor.go:58-90 | over every prefix of a block, pool plus gas used by transactions that bought gas is the block's limit, and AddGas never panics |
| `StateProcessors.BaseFeeBurnt` | core/state_processor.go:58-90 | the block burns exactly the base fee of that gas; that accepted transactions can pay it is proved, not assumed |
| `StateProcessors.NoncesInOrder` | core/state_processor.go:58-90 | over every prefix of a block the nonces of a sender's transactions go up from every call on |
| `StateProcessors.Process` | core/state_processor.go:58-138 | stops at the first transaction not accepted; receipts report the verdicts, cumulative gas is the prefix sum, and the state is that after all transactions |
| `RecreateState.AddReceipts` | arbitrum/recreatestate.go:43-45 | the running L2 gas modulo 2^64 is the sum of the gas used less the sum of the L1 gas |
| `RecreateState.AdvanceStateByBlock` | arbitrum/recreatestate.go:66-82 | processes the canonical block in place if it continues the previous hash and can be processed, and otherwise gives the exact error |
| `RecreateState.AdvanceStateUpToBlock` | arbitrum/recreatestate.go:84-103 | a result is the fold along the target's own ancestors although the chain may change between reads; always fails from a block at or above the target; succeeds if nothing gets in the way |
| `RecordingDbs.RecordingDatabase.StateFor` | arbitrum/recordingdb.go:193-202 | a state handed out takes one reference, a missing one none |
| `RecordingDbs.RecordingDatabase.FindLastAvailableState` | arbitrum/recreatestate.go:26-64 | for every depth limit finds a state if and only if the walk reaches one, then that of the nearest ancestor, and otherwise reports exactly why and where it ended; the L2 gas of the blocks above it is within a positive limit if and only if it is below 2^64 |
| `RecordingDbs.HitExactly` | arbitrum/recreatestate.go:32-62 | in plain terms when the walk finds the state of the ancestor with a given number: it is there, and every block above was left behind within the limit |
| `RecordingDbs.StepBack` | arbitrum/recreatestate.go:38-61 | one round at a block without state: the parent and the new gas total, or the first obstacle |
| `RecordingDbs.HugeBlockPassesLimit` | arbitrum/recreatestate.go:38-48 | a walk with a limit of one that finds a state below a block of 2^64 gas |
| `RecordingDbs.RecordingDatabase.AddStateVerify` | arbitrum/recordingdb.go:232-254 | references the root if and only if the commit gives the expected one |
| `RecordingDbs.RecordingDatabase.RecreateBlock` | arbitrum/recordingdb.go:321-333 | the reference moves from the last root to the block's |
| `RecordingDbs.RecordingDatabase.Recreate` | arbitrum/recordingdb.go:312-343 | on success the reference is on the target's root and the state is the fold along its ancestors; on every failure it is dropped |
| `RecordingDbs.RecordingDatabase.Dereference` | arbitrum/recordingdb.go:204-208 | giving back a hold keeps references and holds equal |
| `RecordingDbs.RecordingDatabase.GetOrRecreateState` | arbitrum/recordingdb.go:304-344 | exactly one more hold on success and none on failure; references equal holds afterwards if and only if the context was not cancelled just after a state was found; succeeds if nothing gets in the way |
| `RecordingDbs.CancelledAfterHitHappens` | arbitrum/recreatestate.go:33-63 | a run in which the context is cancelled just after a state was found |
| `RecordingDbs.RecordingDatabase.PrepareRecording` | arbitrum/recordingdb.go:256-283 | the same, with the hold given back when a later step fails |
| `HashFn.WalkFindsAncestor` | core/evm.go:107-119 | on a tree the plain walk gives the true ancestor |
| `HashFn.HashAtIsAncestor` | core/evm.go:87-123 | a stored header's lookup answers with its true ancestors, and with nothing from its own number on |
| `HashFn.Lookup.GetHash` | core/evm.go:87-123 | every query gets the plain walk's answer, whatever queries filled the cache, with no underflow |
| `HdPath.ParseDerivationPath` | accounts/hd.go:68-118 | the loop is the parse function, with each error |
| `HdPath.String` | accounts/hd.go:122-136 | the loop is the print function |
| `HdPath.AcceptedRange` | accounts/hd.go:96-112 | exactly which plain and hardened numbers are accepted |
| `HdPath.SignedRange` | accounts/hd.go:101-112 | a plus sign changes nothing, and a number below zero is refused |
| `HdPath.UnderscoreSeparates` | accounts/hd.go:101-104 | an underscore between digits changes nothing, and any other one is refused |
| `HdPath.PrefixMeansBase` | accounts/hd.go:101-104 | numbers after the prefixes of base 16, 8 and 2, or after a zero, are read in that base |
| `HdPath.SpaceIsIgnored` | accounts/hd.go:88-99 | white space around a component and before its hardened mark changes nothing |
| `HdPath.RelativeToDefaultRoot` | accounts/hd.go:72-85 | a relative text is parsed as the same text below the default root |
| `HdPath.RoundTrip` | accounts/hd.go:68-136 | parsing a printed path gives it back, over all 32-bit components, if and only if it is not empty |
| `HdPath.ReparseIsStable` | accounts/hd.go:68-136 | an accepted text gives a non-empty path that prints and parses back to itself |

## Left out

- Block import (`insertChain`, `insertSideChain`, `InsertReceiptChain`), snap sync and the freezer: they rest on the
  engine, the validator and the ancient store.
- `rawdb`, `trie`, `state.StateDB`, `prque`, hashing and RLP: maps, multisets, a queue popped by lowest number, and hashes
  that identify blocks.
- The block head, snap head and header head coincide in the chain model, as in full sync; the transaction lookup cache
  is not modelled, since a reorg does not purge it.
- Events, logs, metrics and the order in which they are sent.
- The EVM and the Arbitrum hooks: any change to the balances and any gas they leave; nonces and code changed by the EVM,
  and contract addresses, are not modelled.
- CanonicalChain.BlockChain.SetCanonical: the re-execution of missing ancestors is a given outcome.
- HeaderChains.HeaderChain.GetAncestor: a stored hash with another number is left open, since the source's header cache
  answers by hash alone.
- HeaderChains.HeaderChain.SetHead: a callback that forces a deeper rewind, and the deletion of bodies, are not modelled.
- HeaderChains.HeaderChain.WriteHeaders: assumes a batch that header validation lets through.
- HeaderChains.HeaderChain.GetTd: fills of the caches by reads are not modelled, since they only hold what the database holds.
- ChainIndexers.ChainIndexer.NewHead: child indexers are not modelled, and block numbers stay below 2^64.
- ChainIndexers.ChainIndexer.ProcessSection: the roll back after a failed Reset, which the source does without the lock, is
  one step here; throttling and shutdown are not modelled.
- ChainIndexers.ActionKeeps: a restart happens between steps, never between the writes of a head and of the count.
- ChainIndexers.VerifiedSectionsAreCanonical: a canonical chain is the path to some head; an index caught between the two
  batches of a reorg is not one.
- Feeds.SendOutcome: reflection type checks and channel buffers are not modelled; whether a receiver is ready is a free choice.
- Rewind.RewindHead: the rewind of the snap block and the freezer's force flag are not modelled.
- TrieGc.Collector.CollectGarbage: memory pressure flushes (`Cap`) are not modelled.
- TrieGc.Collector.WriteState: memory pressure flushes (`Cap`) and the process time counter's growth are not modelled.
- StateTransitions.StateTransition.TransitionDb: a message without a fee cap, which only older callers build, is not modelled.
- StateTransitions.NonceAfter: the nonce that a creation sets is set by the EVM and not modelled, so `NoReplay` and
  `NoncesInOrder` are about calls.
- StateProcessors.Process: hard-fork state changes, withdrawals and the engine's finalisation are not modelled.
- RecordingDbs.RecordingDatabase.FindLastAvailableState: the lookup is that of the recording database.
- RecordingDbs.RecordingDatabase.GetOrRecreateState: calls of other goroutines between its steps only add their own holds and
  are not interleaved.
- HdPath.ParseDerivationPath: texts are sequences of Unicode characters, so invalid UTF-8 is not modelled.
- The path iterators of accounts/hd.go and `ClipToPostNitroGenesis`: they would only add easy members.
