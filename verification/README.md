# Verified core of an Arbitrum execution client

The client runs Arbitrum's state transition on top of reth and revm. Much of it is bookkeeping around an EVM that can
be taken as a black box: balances are moved behind the EVM's back, the state diff is rebuilt from a cache, blocks are
kept in memory and flushed in the background, and Stylus programs re-enter the EVM through hand-written trampolines.
This project models that bookkeeping in Dafny and proves what it promises over every input, every run or every call
tree. Code that updates fields in place is a class with `modifies` clauses; code that only computes is functions.

| file | models | main results |
|---|---|---|
| `StateOverlay.dfy` | snapshots taken before direct cache writes, drained into transitions | one transition per account; replaying forward and reverting backward, with the exact exceptions |
| `Executor.dfy`, `EvmCommit.dfy` | balance operations, zombies, Finalise, the EVM's commit, drains and resets of the overlay | each keeps the block replayable, with the exact accounts that drift; what Finalise removes; who is a zombie |
| `SubmitRetryable.dfy` | submit-retryables | the exact ledger of every branch |
| `Books.dfy`, `TxPostings.dfy` | what a transaction does, as a list, and what that comes to | every account, every zombie and every listed deletion from the list; who is refunded what; a retry makes and destroys no money, a user transaction destroys only the tip on a floor top-up; when an emptied escrow is listed |
| `Retries.dfy`, `EvmTxs.dfy` | retries from escrow to refunds and their erring runs, user transactions around the EVM | accounts, zombies and deletions as booked; exactly which accounts an erring retry leaves out of step |
| `BlockRun.dfy` | blocks of deposits, internal, submit-retryable, retry and user transactions | every kind of transaction as booked; the transitions of any block replay and revert every account but senders and escrows of retries that err after their start; zombies come only from listed deletions; deposits are the only new money where runs take only gas |
| `CoalescedState.dfy` | one lookup table over the storage of all unflushed blocks | every lookup equals the newest-first walk over the blocks |
| `Producer.dfy` | the in-memory chain, trie inputs, background flushes, backpressure, overlay cache, resets | over every interleaving: at most one flush outstanding, bounded memory, every read and every state-root input along the run sees exactly the canonical history; the exact condition after a reset and after an abandoned block |
| `BundleDiff.dfy` | the four passes that turn the cache into the hashed diff | reading the diff over the parent gives the cache back, with the exact exceptions, and every slot whatever the EVM did |
| `StylusFrames.dfy` | trampolines and programs over arbitrary call trees | page, actor, depth and checkpoint bracketing on every return path; the journal keeps exactly what successful calls wrote; the page high-water mark is exact |
| `Redeem.dfy`, `ScheduledTxs.dfy` | gas of a redeem, and the loop that runs what redeems schedule | exact unspent gas; the loop ends within initial gas / 21,000 retries; which batches may lose one |
| `GasLedger.dfy`, `BlockBudget.dfy` | gas and fees of a user transaction, and the block's gas budget | the sender pays exactly the receipt; fees are conserved exactly when the floor burns no tip; the budget is never overdrawn |
| `BlockHashes.dfy`, `RecentWasms.dfy` | the 256-block hash window, the LRU of recent programs | canonical hashes over all runs and resets; exact recency |
| `AbiEncoder.dfy`, `ExpApprox.dfy` | a nested dynamic ABI encoder, the integer exponential | round trip through an independent decoder; monotone, and within one part in ten thousand below the exponential series |

`Machine.dfy`, `Options.dfy`, `Accounts.dfy` and `Ledger.dfy` hold bounded integers, accounts, lists of moves and books
of postings.

## What turned out not to hold

Each of these is stated with an input that shows it and with the exact condition under which the code is right.

- A drained account replays to the cache unless a live account is emptied over a status that says it never existed, or
  a present-empty zombie vanishes (`Overlay.DecideForward`, `Overlay.DeletionDroppedExample`,
  `Overlay.ZombieVanishedExample`). No block whose retries do not err reaches either case
  (`BlockRun.RunBlock`). Reverting a block may turn an account that began present-empty into an absent one, and nothing
  else.
- A drained status is not always a legal successor of the bundle's: an account that neither bundle nor snapshot has,
  and a resurrected zombie, are emitted as created even over a destroyed status (`Overlay.DecideSucceedsBundle`,
  `Overlay.CreatedOverDestroyedExample`).
- A retry emits what its start moved before the EVM runs. When the run then errs, the rollback is written to the cache
  and its snapshots are forgotten with the next transaction, so that sender and escrow no longer replay to what is seen,
  exactly when the start moved something (`EvmTxs.RunRetry`, `BlockRun.RunTransaction`, `BlockRun.ErringRetryDrifts`).
  The producer's later merge of the cache into the bundle restores the account there (`BundleDiff.LiveInfoReadBack`).
- An escrow that the start of a retry empties is dropped by that early drain and not by Finalise. It enters the deleted
  set only when the EVM or a later payment makes it present again and it ends blank; one that nobody else has to do with
  never does, so no later zero-value transfer resurrects it (`TxPostings.EmptiedEscrowListed`,
  `TxPostings.UndisturbedEscrowNotListed`, `BlockRun.EmptiedEscrowIsNotListed`).
- An account leaves the zombie set only in the zombie-aware transfer. A deposit, a submit-retryable payment or a mint
  credits a zombie without ending it (`Books.OthersKeepZombies`, `BlockRun.DepositLeavesZombie`).
- Retries scheduled by any but the last transaction of a batch are dropped, because running a transaction clears the
  list (`ScheduledTxs.BatchKeepsAll`, `ScheduledTxs.BatchIsSureToKeepAll`, `ScheduledTxs.LostRetryExample`).
- A flush that failed is taken out of memory like one that succeeded, and its blocks are lost exactly when the disk
  does not already hold them (`Producer.BlockProducer.DrainCompletedFlush`, `Producer.FailedFlushLosesBlocks`).
- A reset clears the trie input although blocks up to the target that no flush has stored stay in memory. The next
  state root is right for every next block exactly when those blocks change nothing (`Producer.ResetAndDrain`,
  `Producer.BlockProducer.NextRootsRightIff`, `Producer.ResetForgetsUnflushed`).
- A block abandoned after its state root was computed, because its header could not be derived, leaves its state in
  the accumulator. The next root is right exactly when every key of the abandoned block is overwritten by the next or
  already has that value, and every trie node of it already has its value (`Producer.BlockProducer.Produce`,
  `Producer.AbandonThenProduce`, `Producer.AbandonedBlockExample`). A flush that commits heals this and the reset
  (`Producer.FlushHeals`).
- The diff deletes an account that one transaction deleted and a later one restored to exactly its parent state
  (`BundleDiff.LiveInfoReadBack`, `BundleDiff.RestoredAccountIsDeleted`).
- The header derivation, which ignores statuses, reads the parent's value of a slot that a destroyed and re-created
  account wrote and cleared (`BundleDiff.ProducedHeaderReadBack`, `BundleDiff.HeaderMissesClearedSlot`). All other readers
  see every cached slot (`BundleDiff.ProducedSlotsReadBack`).
- BALANCE shows a full gas purchase exactly when the withheld gas costs at most a 128-bit word
  (`GasLedger.BalanceShowsFullPurchase`, `GasLedger.CorrectionOverflowExample`), and with tips collected the tip on a
  floor top-up is minted to nobody (`GasLedger.FeesConserved`, `GasLedger.FloorBurnsTipExample`).
- The balance that a submit-retryable predicts for its sender also deducts what the sender pays to itself, and gas is
  refused that the sender could pay for (`SubmitRetryable.PredictedBalance`, `SubmitRetryable.AffordableGasRefused`,
  `SubmitRetryable.AffordableGasRefusedExample`).

Where comments and code disagree the model follows the code: a comment at `crates/arb-evm/src/build.rs:3040-3044`
says any non-zero transfer ends a zombie, and `crates/arb-node/src/launcher.rs:149` promises a signal after each
successful flush although failed ones signal too. The outermost Stylus program of a transaction is not among the
counted actors, so the re-entrance flag speaks of the actors the trampolines pushed. The snapshots of an erring
retry's rollback are forgotten at once in the model: nothing looks at them before the next transaction clears them, and
the end of a block does not drain them.

## Model

| member | source | states |
|---|---|---|
| `Overlay.DecideForward` | crates/arb-evm/src/state_overlay.rs:75-222 | forward replay of one drained account equals the cache up to EIP-161 pruning if and only if neither exception applies |
| `Overlay.DeletionDroppedExample` | crates/arb-evm/src/state_overlay.rs:173-175 | an emptied live account for which nothing is emitted |
| `Overlay.ZombieVanishedExample` | crates/arb-evm/src/state_overlay.rs:85-125 | a vanished zombie for which nothing is emitted |
| `Overlay.DecideShape` | crates/arb-evm/src/state_overlay.rs:139-216 | an emitted transition carries the snapshot as previous info, a deletion exactly when a live account is now vacant and the cached account otherwise, a storage flag that fits, and the recorded status as previous status unless a zombie is resurrected from absence |
| `Overlay.DecideEmits` | crates/arb-evm/src/state_overlay.rs:139-216 | exactly when nothing is emitted |
| `Overlay.CacheFollows` | crates/arb-evm/src/state_overlay.rs:59-227 | the cache ends up holding what the emitted transition says |
| `Overlay.DecideKeepsLive` | crates/arb-evm/src/state_overlay.rs:147-222 | a changed live account is always emitted as it is |
| `Overlay.ResurrectionRevertsToAbsent` | crates/arb-evm/src/state_overlay.rs:88-122 | a resurrected zombie persists as present-empty and reverts to absent whatever its recorded status |
| `Overlay.DecideSucceedsBundle` | crates/arb-evm/src/state_overlay.rs:121-191 | for every snapshot, cache, bundle entry and zombie flag, the emitted status is a legal successor of the bundle status if and only if no account is emitted as created over a status that says it existed |
| `Overlay.DecideSucceedsRecorded` | crates/arb-evm/src/state_overlay.rs:139-216 | without a bundle entry the emitted status succeeds the recorded one, with the same exact exception |
| `Overlay.DecideKeepsStorage` | crates/arb-evm/src/state_overlay.rs:139-216 | an account live before and after is wiped by its emitted status exactly when the status it follows wipes: always for the hashed diff, and in memory unless that status says loaded as empty |
| `Overlay.CreatedOverDestroyedExample` | crates/arb-evm/src/state_overlay.rs:121-191 | a live account and a zombie emitted as created over a destroyed one |
| `Overlay.DrainReplays` | crates/arb-evm/src/state_overlay.rs:59-227 | a drain replays forward to the cache and backward to the state before the first write, account by account |
| `Overlay.StateOverlay.RecordPreTouch` | crates/arb-evm/src/state_overlay.rs:38-57 | the first touch records what is seen, later ones nothing; no read and no baseline changes |
| `Overlay.StateOverlay.DrainAndApply` | crates/arb-evm/src/state_overlay.rs:59-227 | whatever the iteration order, exactly the transitions decided account by account are appended, at most one each, and they replay both ways; the lemmas on Decide say what each is |
| `Executor.WriteKeepsConsistent` | crates/arb-evm/src/build.rs:3159-3231 | a recorded write of a present account keeps the block replayable |
| `Executor.CommitKeepsConsistent` | crates/arb-evm/src/build.rs:3045-3090 | Finalise and drain keep an account's bookkeeping, bring what they emit back in step, and remove exactly the touched blank accounts that are no zombies |
| `Executor.RemovedIsGone` | crates/arb-evm/src/build.rs:3036-3092 | what Finalise removes ends as an emitted deletion or as never having existed |
| `Executor.TransferMoves` | crates/arb-evm/src/build.rs:3233-3265 | a transfer that goes through moves exactly its amount, self-transfers included |
| `Executor.SumAfterMove` | crates/arb-evm/src/build.rs:3233-3265 | a move leaves the sum of all balances as it is |
| `Executor.ArbBlockExecutor.GetBalance` | crates/arb-evm/src/build.rs:3282-3292 | reading a balance changes nothing that is seen |
| `Executor.ArbBlockExecutor.ApplyMint` | crates/arb-evm/src/build.rs:3159-3186 | credits one account, saturating, and touches no other |
| `Executor.ArbBlockExecutor.ApplyBurn` | crates/arb-evm/src/build.rs:3209-3231 | debits one account, saturating, and touches no other |
| `Executor.ArbBlockExecutor.ApplyBalanceOp` | crates/arb-evm/src/build.rs:3233-3265 | fails exactly when a transfer exceeds the balance and then changes nothing; otherwise changes exactly the accounts named |
| `Executor.ArbBlockExecutor.Transfer` | crates/arbos/src/util/transfer.rs:24-35 | insufficient balance if and only if; otherwise moves the amount and keeps the total |
| `Executor.ArbBlockExecutor.Mint` | crates/arbos/src/util/transfer.rs:37-43 | raises one balance and the total by the amount |
| `Executor.ArbBlockExecutor.MaterialiseEmpty` | crates/arb-evm/src/build.rs:3188-3206 | an absent account becomes present-empty and touched; no balance changes |
| `Executor.ArbBlockExecutor.CreateZombieIfDeleted` | crates/arb-evm/src/build.rs:3294-3319 | exactly an absent account deleted earlier in the block becomes a zombie |
| `Executor.ArbBlockExecutor.TransferZombieAware` | crates/arb-evm/src/build.rs:1325-1362 | the exact zombie set after the transfer: entered only by a zero-value transfer from a deleted account before the Stylus version, left on any credit or non-zero debit; the exact accounts with shortfall and saturation |
| `Executor.ZombiesAfter` | crates/arb-evm/src/build.rs:1325-1362 | who is a zombie after a zombie-aware transfer, account by account |
| `Executor.ArbBlockExecutor.Finalise` | crates/arb-evm/src/build.rs:3045-3083 | every touched blank non-zombie account is removed, recorded first and listed; no other is |
| `Executor.ArbBlockExecutor.EndTransaction` | crates/arb-evm/src/build.rs:3045-3090 | balances stay, touched blank accounts are gone, and the block stays replayable |
| `Books.ZombiesAreDeleted` | crates/arb-evm/src/build.rs:1325-1362 | whatever a transaction does, its zombies were zombies before or had been deleted |
| `Books.OthersKeepZombies` | crates/arb-evm/src/build.rs:3159-3265 | nothing but zombie-aware transfers edits the zombies |
| `Books.UnnamedStays` | crates/arb-evm/src/build.rs:3159-3265 | an account no step of a transaction names stays as it is |
| `Books.PresentIffMade` | crates/arb-evm/src/build.rs:3159-3265 | over any list of money movements an account is present afterwards if and only if it was or one of them made it so, with the nonce and code it had |
| `Books.MovesKeepSum` | crates/arb-evm/src/build.rs:3233-3265 | any list of transfers keeps the sum of all balances, shortfalls and self-transfers included |
| `Books.Close` | crates/arb-evm/src/build.rs:3036-3092 | the end of a transaction: exactly the blank non-zombies it left are removed and listed, a zombie is gone exactly when the transaction emptied it, and every other account is as booked |
| `SubmitRetryable.TakeFunds` | crates/arbos/src/tx_processor.rs:654-665 | splits a pool into what was taken and what is left |
| `SubmitRetryable.PredictedBalance` | crates/arbos/src/tx_processor.rs:779-890 | the predicted sender balance is the real one less what it pays to itself |
| `SubmitRetryable.AffordableGasRefused` | crates/arbos/src/tx_processor.rs:779-890 | gas the sender could pay for is refused if and only if only what it pays to itself makes up the price |
| `SubmitRetryable.AffordableGasRefusedExample` | crates/arbos/src/tx_processor.rs:779-890 | the network account refused gas it could pay for |
| `SubmitRetryable.DepositSpentOnce` | crates/arbos/src/tx_processor.rs:779-890 | the deposit is spent exactly once over call value, refunds and what a redeem may still refund |
| `SubmitRetryable.InfraComesFirst` | crates/arbos/src/tx_processor.rs:751-773 | from version 11 with an infra account it gets at most the minimum base fee for the gas, and exactly that once the network gets anything; otherwise nothing |
| `SubmitRetryable.DepositPaysInOrder` | crates/arbos/src/tx_processor.rs:814-878 | the deposit pays its claims in order, each as far as what is left goes |
| `SubmitRetryable.FeesAccepted` | crates/arbos/src/tx_processor.rs:786-842 | exactly when the fees are refused and when gas is paid for |
| `SubmitRetryable.FeesCovered` | crates/arbos/src/tx_processor.rs:754-890 | the sender covers every amount that will be moved, and the two shares are the cost of the gas |
| `SubmitRetryable.RestCovered` | crates/arb-evm/src/build.rs:583-1039 | after the escrow transfer the sender still covers the rest, whoever else it is |
| `SubmitRetryable.RolesGain` | crates/arb-evm/src/build.rs:583-1039 | with all accounts different: what the network account, the infra account, the escrow and the refund address each gain |
| `SubmitRetryable.Pay` | crates/arb-evm/src/build.rs:700-979 | a swallowed transfer: touches both accounts, keeps the total, extends the ledger exactly when it goes through |
| `SubmitRetryable.PayFees` | crates/arb-evm/src/build.rs:717-739 | the submission fee and the refund of its excess are paid |
| `SubmitRetryable.PayForGas` | crates/arb-evm/src/build.rs:839-979 | the gas cost is split over its collectors and refunds, or refunded when gas cannot be paid for |
| `SubmitRetryable.RefundShortfall` | crates/arb-evm/src/build.rs:749-775 | an escrow shortfall undoes the fee and refunds what the deposit covered |
| `SubmitRetryable.TouchEscrow` | crates/arb-evm/src/build.rs:800-808 | a zero-value escrow is materialised and touched; no balance changes |
| `SubmitRetryable.MoveFunds` | crates/arb-evm/src/build.rs:700-979 | all payments of an accepted submission, account by account; the escrow transfer falls short if and only if the sender cannot cover the call value |
| `SubmitRetryable.MintDeposit` | crates/arb-evm/src/build.rs:623-636 | the deposit is minted and added to the expected balance delta |
| `SubmitRetryable.ExecuteSubmitRetryable` | crates/arb-evm/src/build.rs:583-1039 | on every branch each account is exactly as booked, shortfalls included; when the money fits a word each balance changes by exactly the deposit and the listed payments, and the total by the deposit; the fee lemmas say what is listed |
| `BlockRun.ExecuteDeposit` | crates/arb-evm/src/build.rs:1454-1512 | a deposit ends with its recipient, redirected or not; no other account changes and the total grows by it |
| `BlockRun.ExecuteInternal` | crates/arb-evm/src/build.rs:1318-1362 | exactly the transfers whose source can pay, in order, are made; the exact zombies; the total stays |
| `BlockRun.CommitTransaction` | crates/arb-evm/src/build.rs:2601-2616 | the sender is charged exactly the gas the EVM did not charge, and the transaction is finalised |
| `BlockRun.ExecuteSubmit` | crates/arb-evm/src/build.rs:583-1039 | a submission has exactly its effect on every balance |
| `BlockRun.ExecuteTx` | crates/arb-evm/src/build.rs:1275-1549 | a transaction that ends without the EVM: every account and zombie as booked, leaving no gas to charge |
| `BlockRun.RunTransaction` | crates/arb-evm/src/build.rs:1167-3092 | every kind of transaction: every account, every zombie and every listed deletion is as booked; one that errs removes nothing and changes no balance; only sender and escrow of an erring retry can drift, and from a block in step a retry leaves it in step if and only if it does not err after a start that moved something |
| `BlockRun.RunBlock` | crates/arb-evm/src/build.rs:1167-3092 | every transaction of any block in turn takes place as booked; only senders and escrows of retries that err after a start that moved something can be out of step, and the transitions replay every other account to what is seen, zombies included, and revert it; zombies come only from listed deletions; where every run takes only gas the sum of all balances changes by exactly the minted deposits, and without EVM runs so does the expected delta |
| `BlockRun.ErringRetryDrifts` | crates/arb-evm/src/build.rs:2071-2089 | a retry whose run errs: its prepaid gas is in the transitions and not in the cache |
| `BlockRun.RunRedeem` | crates/arb-evm/src/build.rs:1556-2832 | a retry as one transaction, with the exact drift, and no money made or destroyed when its run takes only gas |
| `BlockRun.RunUserTx` | crates/arb-evm/src/build.rs:2389-3092 | a user transaction as one transaction, which keeps the sum of all balances when its run takes what its fees give back |
| `BlockRun.RunPlain` | crates/arb-evm/src/build.rs:1275-1549 | a deposit, submission or internal transaction with its commit |
| `BlockRun.ZombiesComeFromDeleted` | crates/arb-evm/src/build.rs:1325-1362 | every zombie after a transaction was one before or had been listed as deleted |
| `BlockRun.EmptiedEscrowIsNotListed` | crates/arb-evm/src/build.rs:1655-1663 | a whole retry that empties an escrow live at block start: the escrow is gone and not among the deleted |
| `BlockRun.SubmissionListsEscrow` | crates/arb-evm/src/build.rs:800-808 | a submission of zero call value ends with its escrow listed as deleted |
| `BlockRun.TransferWakes` | crates/arb-evm/src/build.rs:1325-1362 | a transfer of nothing from a listed account makes it a zombie |
| `BlockRun.DepositKeepsZombies` | crates/arb-evm/src/build.rs:1483-1496 | a deposit credits its recipient and edits no zombie |
| `EvmCommit.EvmKeepsConsistent` | crates/arb-evm/src/build.rs:2458-2462 | the EVM's own write of an account keeps its bookkeeping and brings it back in step when revm emits it |
| `EvmCommit.ClearedSucceeds` | crates/arb-evm/src/build.rs:2458-2462 | clearing an account moves it to a status that succeeds its own, or leaves a gone one as it is |
| `EvmCommit.WriteByEvm` | crates/arb-evm/src/build.rs:2458-2462 | one account written by the EVM: no other changes, and a written account is in step |
| `EvmCommit.CommitEvm` | crates/arb-evm/src/build.rs:2458-2462 | in any order, what the EVM changed is seen and will be looked at by Finalise, and nothing new drifts |
| `EvmCommit.DrainKeepsConsistent` | crates/arb-evm/src/build.rs:1658-1663 | a drain without Finalise keeps any account's bookkeeping but that of one freshly present and empty |
| `EvmCommit.DrainEarly` | crates/arb-evm/src/build.rs:1658-1663 | what a drain in the middle of a transaction emits, and which accounts it drops |
| `EvmCommit.Forget` | crates/arb-evm/src/build.rs:1219-1219 | clearing snapshots that no transition records makes exactly the accounts drift whose replay differs from what is seen |
| `Retries.TakeEscrow` | crates/arb-evm/src/build.rs:1585-1646 | the value leaves escrow if and only if escrow covers it, with the exact zombie set |
| `Retries.StartRetry` | crates/arb-evm/src/build.rs:1556-1700 | when a retry starts, what it moves is emitted before the EVM runs: the exact account, drift and zombies |
| `Retries.StartedAccount` | crates/arb-evm/src/build.rs:1585-1663 | only a woken escrow becomes present and empty, and only an emptied one stops being live |
| `Retries.EmitStart` | crates/arb-evm/src/build.rs:1648-1663 | after the early drain every account the start changed is in step |
| `Retries.RollBack` | crates/arb-evm/src/build.rs:2071-2089 | the prepaid gas and the value are taken back, through snapshots that nothing drains |
| `Retries.AbortRetry` | crates/arb-evm/src/build.rs:2071-2089 | every balance is restored, and unless a credit overflowed exactly the accounts that the start changed no longer replay |
| `Retries.RefundsMeetDemands` | crates/arbos/src/tx_processor.rs:731-749 | over any list of demands each account is asked for exactly what is demanded of it |
| `Retries.RefundsReach` | crates/arbos/src/tx_processor.rs:731-749 | what the pool covers is sent to the refund address and the rest to the sender, who is sent something only once the pool is used up |
| `Retries.PoolRunsDown` | crates/arbos/src/tx_processor.rs:731-749 | the pool after any demands is what they leave of it, and never overdrawn |
| `Retries.InfraGivesFirst` | crates/arbos/src/tx_processor.rs:405-425 | the infra account gives back the minimum base fee for the unused gas before the network gives back anything |
| `Retries.RefundsAddUp` | crates/arbos/src/tx_processor.rs:370-460 | the infra and the network account are each asked for exactly their part of the unused gas, a successful retry's submission fee and the resource difference; the refund address is to get what the deposit still covers after the fee of a failure and the gas used, and the sender the rest |
| `EvmTxs.RaiseNonce` | crates/arb-evm/src/build.rs:3266-3279 | one nonce is raised and the account touched; no other account changes |
| `EvmTxs.MakeMove` | crates/arb-evm/src/build.rs:2698-2736 | a zombie-aware transfer is booked: exact accounts, exact zombies |
| `EvmTxs.MeetDemand` | crates/arbos/src/tx_processor.rs:731-749 | one refund as booked: the pool's part to the refund address and the rest to the sender, each skipped when the collector cannot cover it |
| `EvmTxs.MeetDemands` | crates/arbos/src/tx_processor.rs:370-460 | all refunds: exact accounts and exact zombies |
| `EvmTxs.EndRetry` | crates/arb-evm/src/build.rs:2618-2832 | the end of a retry: exact accounts and exact zombies as booked; the refund lemmas say who is booked what |
| `EvmTxs.RedirectTip` | crates/arb-evm/src/build.rs:2476-2502 | the tip moves from coinbase to network if and only if coinbase holds it |
| `EvmTxs.ChargeActivation` | crates/arb-evm/src/build.rs:2504-2522 | the activation fee is burned from the sender and minted to the network |
| `EvmTxs.SweepEscrow` | crates/arb-evm/src/build.rs:2524-2567 | a ticket's whole escrow goes to its beneficiary, with the exact zombie set |
| `EvmTxs.AfterEvm` | crates/arb-evm/src/build.rs:2458-2616 | commit up to the fees: every account and every zombie as booked, everything changed is touched |
| `EvmTxs.DistributeFees` | crates/arb-evm/src/build.rs:2848-2985 | network, infra and poster fees and the resource refund, and exactly who is touched |
| `EvmTxs.RunUser` | crates/arb-evm/src/build.rs:2389-3092 | a user transaction: accounts, zombies and deletions as booked from the EVM's writes to the fees; nothing new drifts, and an erring one changes nothing |
| `EvmTxs.CommitRetry` | crates/arb-evm/src/build.rs:2389-3092 | a retry from the EVM's writes to its refunds: accounts, zombies and deletions as booked |
| `EvmTxs.RunRetry` | crates/arb-evm/src/build.rs:1556-2832 | how a retry starts; accounts, zombies and deletions when it runs; exactly which accounts drift when its run errs |
| `TxPostings.StartBooked` | crates/arb-evm/src/build.rs:1585-1663 | a retry's start as booked is the start as executed, early drain included |
| `TxPostings.CommitTotal` | crates/arb-evm/src/build.rs:2458-2616 | a run that takes only gas destroys with its commit exactly the gas used |
| `TxPostings.RunTotal` | crates/arb-evm/src/build.rs:2458-2522 | after the run the tip goes from the coinbase to the network account if it is there, and the activation fee from the sender to the network account |
| `TxPostings.CommitLeaves` | crates/arb-evm/src/build.rs:2458-2616 | the commit destroys only the gas that the EVM did not charge and what is withdrawn |
| `TxPostings.FeesReach` | crates/arb-evm/src/build.rs:2848-2985 | what each collector gains for a user transaction, and the resource refund to the sender |
| `TxPostings.UserTotal` | crates/arb-evm/src/build.rs:2458-2985 | the total after a user transaction, from the total after its run: what is minted to the collectors, less uncharged gas and withdrawals |
| `TxPostings.UserKeepsTotal` | crates/arb-evm/src/build.rs:2458-2985 | a user transaction whose run takes what its fees give back keeps the sum of all balances |
| `TxPostings.UserConserves` | crates/arb-evm/src/build.rs:2458-2985 | a user transaction whose run takes only gas at the price, paid out by the fee distribution, makes no money and destroys exactly what it withdraws and the tip on the floor top-up |
| `TxPostings.EndTotal` | crates/arb-evm/src/build.rs:2618-2832 | the end of a retry lowers the sum of all balances by exactly the gas it burns |
| `TxPostings.LastTotal` | crates/arb-evm/src/build.rs:2698-2832 | the escrow goes to the beneficiary when the ticket of a success is still open, the value back to escrow after a failure whose sender holds it, and otherwise nothing moves |
| `TxPostings.RetryConserves` | crates/arb-evm/src/build.rs:1556-2832 | a retry whose run takes only gas leaves the sum of all balances unchanged |
| `TxPostings.EmptiedEscrowListed` | crates/arb-evm/src/build.rs:1655-1663 | an escrow that a retry's start emptied is removed and listed if and only if the EVM or a later payment made it present again and it ends blank and no zombie |
| `TxPostings.UndisturbedEscrowNotListed` | crates/arb-evm/src/build.rs:1655-1663 | an emptied escrow nobody else has to do with is never listed |
| `BlockRun.DepositLeavesZombie` | crates/arb-evm/src/build.rs:1483-1496 | a run: a zombie made by a submission and a transfer of nothing, credited by a deposit and still a zombie |
| `Coalesced.WalkNewestWins` | crates/arb-node/src/coalesced_state.rs:44-83 | the newest block that knows a slot decides it |
| `Coalesced.WalkOneMore` | crates/arb-node/src/coalesced_state.rs:58-69 | extending an overlay by a block refines walking one more block |
| `Coalesced.CoalescedOverlay.ExtendWithAccount` | crates/arb-node/src/coalesced_state.rs:59-68 | an account's wipe and writes shadow what was known of it |
| `Coalesced.CoalescedOverlay.ExtendWithBlock` | crates/arb-node/src/coalesced_state.rs:58-69 | in any order of accounts, the block answers first and the old overlay otherwise |
| `Coalesced.CoalescedOverlay.FromChain` | crates/arb-node/src/coalesced_state.rs:44-53 | every lookup equals the newest-first walk over the chain |
| `Coalesced.CoalescedOverlay.Storage` | crates/arb-node/src/coalesced_state.rs:207-217 | a read is the walk's answer or else the provider's; an empty overlay changes nothing |
| `Producer.MergedConcat` | crates/arb-node/src/producer.rs:1018-1058 | merging is a homomorphism from concatenation to right-biased overlay |
| `Producer.MergedNewestWins` | crates/arb-node/src/producer.rs:1018-1058 | every merged account and trie node is the one of the newest block that changed it |
| `Producer.OverlapMerges` | crates/arb-node/src/producer.rs:1018-1058 | a suffix laid over any prefix that reaches it is the whole, however they overlap |
| `Producer.ReadsCanonical` | crates/arb-node/src/producer.rs:494-510 | reading memory and then disk reads the whole history, however they overlap |
| `Producer.FlushedGo` | crates/arb-node/src/producer.rs:374-375 | removing persisted blocks removes exactly the flushed ones, or none once their last was rolled back |
| `Producer.SavedIsPrefix` | crates/arb-node/src/launcher.rs:366-405 | saving a stretch of the history keeps the disk a prefix of it |
| `Producer.RolledBack` | crates/arb-node/src/producer.rs:1360-1390 | a rollback keeps exactly the blocks up to the target |
| `Producer.Persistence.Serve` | crates/arb-node/src/launcher.rs:366-420 | one request at a time; a flush always answers, with count zero when it failed |
| `Producer.BlockProducer.DrainCompletedFlush` | crates/arb-node/src/producer.rs:367-406 | takes out exactly the flushed blocks; no block is lost if and only if the disk has them |
| `Producer.BlockProducer.WorkerStep` | crates/arb-node/src/launcher.rs:366-405 | the result channel always has room; a committed flush closes every hole in the trie inputs |
| `Producer.BlockProducer.StartAsyncFlush` | crates/arb-node/src/producer.rs:1215-1252 | all in-memory blocks are sent and the accumulator becomes the flushing input |
| `Producer.BlockProducer.ApplyBackpressure` | crates/arb-node/src/producer.rs:408-459 | the wait ends and leaves at most the in-flight limit in memory |
| `Producer.BlockProducer.GetOrBuildOverlay` | crates/arb-node/src/producer.rs:230-249 | cached or rebuilt, the overlay represents the in-memory chain |
| `Producer.BlockProducer.ExtendCachedOverlay` | crates/arb-node/src/producer.rs:251-265 | extending in place refines rebuilding from the longer chain |
| `Producer.BlockProducer.UnflushedCompletesDisk` | crates/arb-node/src/producer.rs:1018-1044 | disk overlaid by both trie inputs is the whole history followed by the abandoned blocks, whether or not a running flush has committed |
| `Producer.BlockProducer.Accumulate` | crates/arb-node/src/producer.rs:1018-1058 | the root input is all unflushed state with the block's own and all unflushed nodes without its own |
| `Producer.BlockProducer.Insert` | crates/arb-node/src/producer.rs:1142-1197 | the block joins chain, history and cache with every invariant kept |
| `Producer.BlockProducer.Prepare` | crates/arb-node/src/producer.rs:408-510 | before execution there is room, finished flushes are out of memory, and reads are right |
| `Producer.BlockProducer.ReadsHistory` | crates/arb-node/src/producer.rs:494-510 | every storage read sees the canonical parent state |
| `Producer.BlockProducer.RootInputFor` | crates/arb-node/src/producer.rs:1018-1062 | the next root input is right if and only if the abandoned blocks are absorbed, and always when there are none |
| `Producer.RootWithStrays` | crates/arb-node/src/producer.rs:1018-1062 | with too much in the unflushed input, the root input of a block is right if and only if the block overwrites the rest or it changes nothing |
| `Producer.BlockProducer.NextRootsRightIff` | crates/arb-node/src/producer.rs:1410-1411 | with emptied inputs every next root input is right if and only if the blocks above the disk change nothing |
| `Producer.BlockProducer.Execute` | crates/arb-node/src/producer.rs:408-1058 | reads, root input and what is accumulated for a block |
| `Producer.BlockProducer.Seal` | crates/arb-node/src/producer.rs:1142-1197 | a sealed block joins the chain, and a flush starts when one is due and none is outstanding |
| `Producer.BlockProducer.Produce` | crates/arb-node/src/producer.rs:1282-1325 | only the next message produces, and a flush starts when one is due; every read and the root input see the canonical history; after abandoned blocks the root input is right if and only if they are absorbed; nothing is lost unless an awaited flush fails |
| `Producer.BlockProducer.ServeUnwind` | crates/arb-node/src/launcher.rs:366-430 | a queued flush is served before the unwind |
| `Producer.BlockProducer.Truncate` | crates/arb-node/src/producer.rs:1360-1390 | memory is cut at the target; a flush of kept blocks is unaffected |
| `Producer.BlockProducer.TruncateAndUnwind` | crates/arb-node/src/producer.rs:1360-1408 | memory and then disk are prefixes of the history that stop at the target |
| `Producer.BlockProducer.RollBack` | crates/arb-node/src/producer.rs:1357-1411 | a rollback keeps every invariant; the trie inputs cover the history if and only if the target is stored or being flushed |
| `Producer.BlockProducer.ResetToBlock` | crates/arb-node/src/producer.rs:1328-1422 | errors exactly for targets ahead; otherwise history, memory and disk are cut at the target, and the inputs cover the history if and only if the target is stored or being flushed |
| `Producer.ResetAndDrain` | crates/arb-node/src/producer.rs:1328-1422 | after a reset every next root input is right if and only if the blocks that neither disk nor flush had change nothing |
| `Producer.ResetForgetsUnflushed` | crates/arb-node/src/producer.rs:1410-1411 | a run: two blocks produced, a reset to the first, and a replacement whose root input is wrong |
| `Producer.AbandonThenProduce` | crates/arb-node/src/producer.rs:1046-1062 | whether or not a flush commits in between, the root input after an abandoned block is right if and only if that block is absorbed |
| `Producer.AbandonedBlockExample` | crates/arb-node/src/producer.rs:1046-1062 | a run: a block abandoned, and the next one's root input wrong |
| `Producer.FlushHeals` | crates/arb-node/src/producer.rs:1215-1252 | a flush that commits and is drained makes inputs and disk right again |
| `Producer.Step` | crates/arb-node/src/producer.rs:1282-1422 | one message, flush step or reset keeps the pipeline valid; what an executed block read and its root input are right in a harmless run |
| `Producer.Run` | crates/arb-node/src/producer.rs:1282-1422 | over every interleaving memory stays bounded, at most one flush is outstanding and every block was executed on the blocks before it; exactly when at no event something fails or a reset cuts below unstored blocks the run is harmless, and then every read and every root input along it is right, the head is what the events make it, no block is lost and disk and inputs cover the history |
| `Producer.FailedFlushLosesBlocks` | crates/arb-node/src/producer.rs:367-406 | a failed flush that is drained loses what it carried |
| `BundleDiff.LiveInfoReadBack` | crates/arb-node/src/producer.rs:945-1013 | a live cached account reads back exactly if and only if it was not overwritten by a recorded deletion |
| `BundleDiff.GoneInfoReadBack` | crates/arb-node/src/producer.rs:945-1013 | an absent or blank account never reads back as live, and a zombie reads back as it is |
| `BundleDiff.GoneEntry` | crates/arb-node/src/producer.rs:945-1013 | what becomes of the entry of an account that is gone: recorded as deleted or dropped, with its origin and status |
| `BundleDiff.BareDeletion` | crates/arb-node/src/producer.rs:945-1013 | a deletion that neither bundle nor cache shows is recorded exactly when the parent has a live account |
| `BundleDiff.UncachedSlotKept` | crates/arb-node/src/producer.rs:1600-1687 | a recorded slot that is not cached stays exactly when it is a change |
| `BundleDiff.SettledSlot` | crates/arb-node/src/producer.rs:1600-1687 | where a cached slot ends up, with its present and its original value |
| `BundleDiff.SlotReadBack` | crates/arb-node/src/producer.rs:945-1016 | for in-memory readers and for the hashed diff, a cached slot reads back if and only if it is in the diff or what its account's status leaves below is the same |
| `BundleDiff.HeaderReadBack` | crates/arb-node/src/producer.rs:1567-1575 | the header derivation reads a cached slot back if and only if its recorded original does not hide it |
| `BundleDiff.DiffIsMinimal` | crates/arb-node/src/producer.rs:1521-1559 | every retained slot is a change and no non-zombie account is present and blank |
| `BundleDiff.OriginRecorded` | crates/arb-node/src/producer.rs:1600-1687 | a recorded account keeps its origin and status, a new one has the parent's |
| `BundleDiff.UncachedKept` | crates/arb-node/src/producer.rs:1521-1559 | what is not cached, and live, a zombie or not deleted, keeps everything but unchanged slots |
| `BundleDiff.UncachedGone` | crates/arb-node/src/producer.rs:945-1013 | all else that is not cached is recorded as deleted, or dropped when the parent never had it |
| `BundleDiff.RestoredAccountIsDeleted` | crates/arb-node/src/producer.rs:990-1008 | a restored account that ends up deleted |
| `BundleDiff.ProducedByAll` | crates/arb-node/src/producer.rs:945-1016 | whatever the EVM does to an account, recorded slots begin at what lies below and unrecorded ones are what lies below |
| `BundleDiff.ProducedSlotsReadBack` | crates/arb-node/src/producer.rs:945-1016 | whatever the EVM did to an account, every cached slot of it reads back, in memory and hashed |
| `BundleDiff.ProducedHeaderReadBack` | crates/arb-node/src/producer.rs:1567-1575 | the header derivation misses exactly the slots that a re-created account wrote and set back to zero over a parent's value |
| `BundleDiff.HeaderMissesClearedSlot` | crates/arb-node/src/producer.rs:1567-1575 | such a slot |
| `BundleDiff.UnrecordedWriteIsLost` | crates/arb-node/src/producer.rs:1602-1623 | a write that the bundle does not record would be lost, and no account reaches such a state |
| `BundleDiff.MergeStorage` | crates/arb-node/src/producer.rs:1602-1623 | slot by slot, recorded slots are brought up to date and changed ones added |
| `BundleDiff.BundleState.AugmentFromCache` | crates/arb-node/src/producer.rs:1582-1687 | every cached account is merged in, and no other changes |
| `BundleDiff.BundleState.MarkFinaliseDeletions` | crates/arb-node/src/producer.rs:949-1010 | deletions of non-zombies are recorded, case by case |
| `BundleDiff.BundleState.FilterUnchangedStorage` | crates/arb-node/src/producer.rs:1552-1559 | exactly the slots that end where they began are dropped |
| `BundleDiff.BundleState.DeleteEmptyAccounts` | crates/arb-node/src/producer.rs:1521-1550 | exactly the blank non-zombies are deleted or dropped |
| `BundleDiff.BundleState.Settle` | crates/arb-node/src/producer.rs:945-1013 | the four passes, account by account |
| `StylusFrames.ProgramPeak` | crates/arb-evm/src/evm.rs:1437-1438 | the most pages open at once, never below what was open; the lemmas below say what it is |
| `StylusFrames.ProgramPeakMonotone` | crates/arb-evm/src/evm.rs:1437-1438 | more pages open on entry never make for a lower peak |
| `StylusFrames.StepsPeakCovers` | crates/arb-stylus/src/env.rs:119-128 | requested pages stay open: the peak is at least that of every call, each on top of what was asked for before it, and at least what is open in the end |
| `StylusFrames.StepsPeakReached` | crates/arb-stylus/src/env.rs:119-128 | and it is one of those |
| `StylusFrames.StepsPeakOfRequests` | crates/arb-stylus/src/env.rs:119-128 | without calls the peak is what was open and everything asked for, up to the counter's limit |
| `StylusFrames.CalleeStacks` | crates/arb-evm/src/evm.rs:1437-1438 | a called program stacks its footprint and its requests on the pages of its caller |
| `StylusFrames.OpsPeakCovers` | crates/arb-evm/src/evm.rs:1437-1438 | calls from EVM code all start from the pages open on entry; the peak is the highest of them or what was open |
| `StylusFrames.ReentryFlag` | crates/arb-evm/src/evm.rs:1316-1592 | a plain call reports re-entrance exactly when its target was active, a delegate call when it was active twice |
| `StylusFrames.FailedKeepsNothing` | crates/arb-evm/src/evm.rs:1316-1592 | what fails leaves nothing behind but the nonce of a creator |
| `StylusFrames.KeptInOrder` | crates/arb-evm/src/evm.rs:1316-1592 | what steps leave in the journal is what each of them leaves, in order |
| `StylusFrames.TxCtx.PushProgram` | crates/arb-context/src/lib.rs:452-457 | the counters are the multiplicities of the active actors; re-entrance if and only if already active |
| `StylusFrames.TxCtx.PopProgram` | crates/arb-context/src/lib.rs:468-476 | undoes a push exactly, leaving no zero entry |
| `StylusFrames.TxCtx.ExecuteProgram` | crates/arb-evm/src/evm.rs:1316-1592 | on every path open pages, actors, depth and checkpoints are restored, the high-water mark is exact, only an outermost abort is accounted, every program in the tree is told it is re-entered if and only if its target is active twice among the non-delegate actors, and the journal grows by exactly what its steps and successful calls wrote |
| `StylusFrames.TxCtx.RunMain` | crates/arb-stylus/src/env.rs:119-128 | a program's own page count is exact over its steps and calls |
| `StylusFrames.TxCtx.RunStep` | crates/arb-stylus/src/env.rs:119-128 | a page request stays open and raises the high-water mark, a write reaches the journal, a call leaves the pages as they were |
| `StylusFrames.TxCtx.Trampoline` | crates/arb-evm/src/evm.rs:503-1038 | calls and creations restore everything, report exact pages, and report success exactly when their writes are kept |
| `StylusFrames.TxCtx.CallTrampoline` | crates/arb-evm/src/evm.rs:503-814 | on every return path the pushed actor and the checkpoint are taken back; nothing of a failed call stays in the journal and everything of a successful one does |
| `StylusFrames.TxCtx.CallInside` | crates/arb-evm/src/evm.rs:566-583 | a transfer that fails is reverted |
| `StylusFrames.TxCtx.RunCallee` | crates/arb-evm/src/evm.rs:619-812 | every callee commits or reverts the checkpoint on its own way out, and succeeds exactly when it commits |
| `StylusFrames.TxCtx.CreateTrampoline` | crates/arb-evm/src/evm.rs:819-1038 | on every return path of a creation the pushed actor and the checkpoint are taken back; only the creator's nonce survives a failed one |
| `StylusFrames.TxCtx.CreateInside` | crates/arb-evm/src/evm.rs:903-1037 | failed init code, oversized, reserved or unpaid code is reverted, deployed code is committed |
| `StylusFrames.TxCtx.RunEvm` | crates/arb-evm/src/evm.rs:1137-1280 | EVM code keeps pages across its own calls and creations, and the journal grows by what it wrote and kept |
| `Redeem.ComputeBacklogUpdateCost` | crates/arb-precompiles/src/arbretryabletx.rs:510-536 | the reservation for any version and any constraints |
| `Redeem.ComputeActualBacklogCost` | crates/arb-precompiles/src/arbretryabletx.rs:538-597 | the cost is the reservation less 15,000 per backlog drained to zero |
| `Redeem.BeforeReservationAddsUp` | crates/arb-precompiles/src/arbretryabletx.rs:270-314 | what is charged before the reservation: the gas used, the lookups and a charge by the size of the calldata |
| `Redeem.CalldataCharge` | crates/arb-precompiles/src/arbretryabletx.rs:277-314 | a further word of calldata costs 850 gas, 50 with its first byte and 800 once it is full |
| `Redeem.CostAddsUp` | crates/arb-precompiles/src/arbretryabletx.rs:270-340 | what a call needs beside its donation |
| `Redeem.ReservationByVersion` | crates/arb-precompiles/src/arbretryabletx.rs:510-536 | the reservation for every version and number of constraints, and what is charged for reading that number |
| `Redeem.HandleRedeem` | crates/arb-precompiles/src/arbretryabletx.rs:247-374 | succeeds if and only if the gas suffices; then the donation is all that the costs leave, and the unspent gas exactly 15,000 per drained backlog, none from version 60; what a revert charges |
| `Redeem.CheapestTicket` | crates/arb-precompiles/src/arbretryabletx.rs:247-340 | no ticket costs less to redeem than one without calldata and extra reads |
| `ScheduledTxs.DonationsArePaidFor` | crates/arb-precompiles/src/arbretryabletx.rs:325-367 | what redeems donate is charged to the redeeming transaction |
| `ScheduledTxs.GenuinePays` | crates/arb-precompiles/src/arbretryabletx.rs:325-367 | every outcome the precompile returns is charged for its donation within the gas of its call |
| `ScheduledTxs.RunPays` | crates/arb-evm/src/build.rs:2223-2306 | what a run schedules carries at least 21,000 gas less than the run was given |
| `ScheduledTxs.ScheduledInOrder` | crates/arb-node/src/producer.rs:852-921 | every redeem that succeeded and whose ticket opens schedules its donation, in order, and no other does |
| `ScheduledTxs.RunBatch` | crates/arb-node/src/producer.rs:852-921 | a batch runs every retry in order and leaves only what its last transaction scheduled, with strictly less gas |
| `ScheduledTxs.DrainScheduled` | crates/arb-node/src/producer.rs:852-921 | every round runs every queued retry in order, the next queue is what its last one scheduled, the last queue is empty, and there are at most initial gas / 21,000 runs |
| `ScheduledTxs.BatchKeepsAll` | crates/arb-evm/src/build.rs:1220-1227 | no scheduled retry is lost if and only if none but the last transaction of a batch schedules any |
| `ScheduledTxs.SchedulingNeedsGas` | crates/arb-precompiles/src/arbretryabletx.rs:247-374 | a run that schedules a retry had the gas for the cheapest redeem and its least donation |
| `ScheduledTxs.BatchIsSureToKeepAll` | crates/arb-node/src/producer.rs:852-921 | by gas limits and intrinsic costs alone: no scheduled retry can be lost if and only if none but the last transaction has the gas for the cheapest redeem |
| `ScheduledTxs.LostRetryExample` | crates/arb-evm/src/build.rs:1220-1227 | a batch of two, the first with a redeem that the precompile returns: the retry it schedules is lost |
| `GasLedger.PricesAgree` | crates/arb-evm/src/build.rs:1233-1254 | the EVM buys gas at the price poster gas is charged at, and the tip is the excess over the base fee |
| `GasLedger.HoldClampsCompute` | crates/arb-evm/src/build.rs:1797-1807 | after the hold computation respects a non-zero limit, and nothing is held from less |
| `GasLedger.FloorIsPerByte` | crates/arb-evm/src/build.rs:3465-3476 | ten gas per token, a zero byte one token and any other four |
| `GasLedger.FloorMatchesStandard` | crates/arb-evm/src/build.rs:3465-3476 | the floor is that of EIP-7623 |
| `GasLedger.ReceiptWithinLimit` | crates/arb-evm/src/build.rs:2389-2399 | the receipt is the larger of gas spent and floor, within the limit |
| `GasLedger.SenderPaysReceipt` | crates/arb-evm/src/build.rs:2601-2616 | the sender pays the actual price for exactly the receipt's gas |
| `GasLedger.BalanceShowsFullPurchase` | crates/arb-evm/src/evm.rs:119-204 | BALANCE shows a full purchase if and only if the withheld gas costs at most a 128-bit word |
| `GasLedger.CorrectionOverflowExample` | crates/arb-evm/src/build.rs:1859-1874 | a correction that does not fit |
| `GasLedger.FeesConserved` | crates/arbos/src/tx_processor.rs:299-366 | what is paid is what is minted, if and only if there is no tip or the floor does not bind |
| `GasLedger.InfraComesFirst` | crates/arbos/src/tx_processor.rs:299-366 | the infra account gets at most the minimum base fee for the gas of computation, and exactly that once the network gets anything; nothing up to version 4 or without an account |
| `GasLedger.RedirectTakesMintedTip` | crates/arb-evm/src/build.rs:2476-2502 | the redirect takes what was minted to the coinbase plus the tip on the top-up |
| `GasLedger.FloorBurnsTipExample` | crates/arb-evm/src/build.rs:2389-2399 | a tip that is minted to nobody |
| `BlockBudget.Budget.Admit` | crates/arb-evm/src/build.rs:1207-1212 | admitted if and only if a plain transfer fits and, before version 50 and after the first user transaction, the compute limit fits |
| `BlockBudget.Budget.AdjustedGasUsed` | crates/arb-evm/src/build.rs:2988-3002 | gas handed on to retries is subtracted from version 11 |
| `BlockBudget.Budget.Commit` | crates/arb-evm/src/build.rs:2988-3029 | deducts at least 21,000 and never more than there is for later user transactions before version 50 |
| `BlockBudget.Budget.DeductFailedTxGas` | crates/arb-evm/src/build.rs:381-387 | a failed transaction costs 21,000 and counts as processed |
| `BlockBudget.Budget.RunBlock` | crates/arb-evm/src/build.rs:1815-1824 | each transaction in turn is let through by what those before it left and charged, until one is not; the budget left plus 21,000 per committed user transaction, and before version 50 plus all later compute, stays within the limit |
| `BlockHashes.ChainCaches.CacheHash` | crates/arb-context/src/lib.rs:187-194 | records a hash and forgets exactly the heights more than 256 below it |
| `BlockHashes.ChainCaches.PopulateWindow` | crates/arb-evm/src/build.rs:494-516 | nothing in the window is evicted, everything below the height stays canonical, and a total lookup fills the window |
| `BlockHashes.ChainCaches.AncestorHashes` | crates/arb-node/src/producer.rs:693-722 | the added hashes are canonical and in the window; from a cold cache with all headers at hand they are the whole window |
| `BlockHashes.ChainCaches.BeginBlock` | crates/arb-node/src/producer.rs:693-736 | when a block executes every cached hash below it is canonical |
| `BlockHashes.Step` | crates/arb-node/src/producer.rs:693-736 | producing or resetting keeps the hashes below the head canonical |
| `BlockHashes.Run` | crates/arb-node/src/producer.rs:693-736 | over any run of blocks and resets; without resets a full window stays full whatever the providers answer |
| `RecentWasms.KeptIffRecent` | crates/arb-context/src/lib.rs:26-53 | a hash is kept if and only if fewer than capacity others were used since |
| `RecentWasms.Reused` | crates/arb-context/src/lib.rs:41-52 | moving a kept hash to the end records its use |
| `RecentWasms.Added` | crates/arb-context/src/lib.rs:41-52 | appending a new hash records its use |
| `RecentWasms.Evicted` | crates/arb-context/src/lib.rs:41-52 | without room exactly the least recently used hash goes |
| `RecentWasms.RecentWasms.Insert` | crates/arb-context/src/lib.rs:40-53 | true if and only if the hash was used with fewer than capacity others since; keeps the recency order |
| `AbiEncoder.BigEndianRoundTrip` | crates/arb-precompiles/src/arbgasinfo.rs:921-922 | a word is read back |
| `AbiEncoder.WeightsRestored` | crates/arb-precompiles/src/arbgasinfo.rs:901-910 | dropping zero weights loses nothing |
| `AbiEncoder.HeadPointsAtTail` | crates/arb-precompiles/src/arbgasinfo.rs:924-933 | every head offset points exactly at its element's tail |
| `AbiEncoder.ElementRead` | crates/arb-precompiles/src/arbgasinfo.rs:935-946 | an element is read back from where it lies |
| `AbiEncoder.DecodesToInput` | crates/arb-precompiles/src/arbgasinfo.rs:919-946 | an independent decoder recovers every window, target, backlog and full weight vector |
| `AbiEncoder.CollectResources` | crates/arb-precompiles/src/arbgasinfo.rs:901-910 | exactly the kinds with a weight, in order |
| `AbiEncoder.EncodeElement` | crates/arb-precompiles/src/arbgasinfo.rs:935-946 | one tail, word by word |
| `AbiEncoder.EncodeHeads` | crates/arb-precompiles/src/arbgasinfo.rs:924-933 | one offset per element |
| `AbiEncoder.Encode` | crates/arb-precompiles/src/arbgasinfo.rs:888-946 | the layout, its length, and that it decodes to the constraints |
| `ExpApprox.ApproxExpBasisPoints` | crates/arb-math/src/lib.rs:30-42 | never above the exponential series cut off at the accuracy, at least 9,999 ten-thousandths of it where no step can saturate, and at least 10,000 plus the input for inputs up to u64::MAX / 10,000 |
| `ExpApprox.MonotoneInInput` | crates/arb-math/src/lib.rs:30-42 | monotone in the input over all u64, saturated or not |
| `ExpApprox.MonotoneInAccuracy` | crates/arb-math/src/lib.rs:30-42 | up to u64::MAX / 10,000 non-decreasing in the accuracy |
| `ExpApprox.AboveLinear` | crates/arb-math/src/lib.rs:30-42 | at least the linear approximation |
| `ExpApprox.NeverAboveTaylor` | crates/arb-math/src/lib.rs:30-42 | rounding and saturation only lower the exact series |
| `ExpApprox.WithinOneBip` | crates/arb-math/src/lib.rs:30-42 | where ten thousand times the series, times the input, fits u64, the result is at least 9,999 ten-thousandths of the series |

## Left out

- The EVM, WASM execution and precompile dispatch are opaque: what they guarantee (gas used within the limit, purchase at the effective price) is stated as `Ran`, `Lawful` and `WithinLimit`, and call trees list what every frame does.
- Database read failures that the code swallows, and storage held inside cached accounts while balances are moved.
- What the EVM does to an account: any write of a live account with one of revm's changed statuses, or the clearing of an empty one, is allowed (`Lawful`), and selfdestruct inside a run is not followed into storage.
- ScheduledTxs.BatchIsSureToKeepAll: does not model what EVM code around a redeem costs beyond a retry's intrinsic gas; a retry addressed to the precompile itself pays nothing else. The number of constraints is taken not to change within a batch.
- BundleDiff.ProducedSlotsReadBack: follows the EVM's own storage writes, for parents that keep no storage of accounts they do not have.
- Books.Close: does not say whether Finalise lists a present and blank account that was like that when the block began.
- EvmTxs.RunRetry: takes the escrow address of a ticket, a hash, to differ from the retry's sender, and states the exact drift when crediting the sender overflows no word.
- Tickets themselves: whether one opens, and whether it is still there to be deleted, are inputs of a retry.
- How gas is computed for pre-recorded reverts and filtered transactions, gas estimation and `compute_poster_gas`; withdrawals are not subtracted from the expected balance delta.
- ArbOS pricing state, L1 pricing and multi-gas dimensions; the multi-dimensional cost of a run is an input.
- Trie hashing, keccak, RLP and signatures; block hashes are numbers, and a block's hash is assumed to differ from those of the blocks below it.
- Locks, notification and timeouts: the producer and the persistence thread take turns in any order.
- The cache of contract code beside the overlay cache, which is keyed by code hash and would add only easier members.
- The adaptive flush scheduler: whether a flush is due is an input of `Producer.BlockProducer.Produce`.
- The caller and actor stacks kept by frame hooks, which depend on revm's handler loop.
- RPC, node wiring, genesis, chain specification and the other precompile handlers.
- AbiEncoder.Encode: is stated for encodings whose length fits u64, which every vector in memory does.
- ExpApprox.ApproxExpBasisPoints: is stated for accuracies whose product with 10,000 fits u64; above that the original's multiplication overflows.
- Redeem.HandleRedeem: sums over constraints are unbounded integers, so it does not model an overflow with astronomically many constraints.
- BlockRun.RunBlock: conservation is stated when the total and the expected delta fit their machine words, as saturation would otherwise create or destroy money.
