# A verified model of the nusantara chain

This project models the parts of the nusantara validator in which a mistake would split the
cluster or corrupt its ledger, and proves what those parts are there to guarantee.

* **Slot execution.** A message compiler fixes who signs and who may write; a greedy scheduler
  cuts a slot into conflict-free batches; each batch runs against a cache snapshot, in any
  order, and commits by index. The model proves exactly when this gives the same results, hash
  input, counters, cache and write batch as executing the transactions one after the other (it
  does for compiled messages within the byte limits of their fields), that reading through the cache is reading the storage the batch
  will leave, and that deferring the write changes nothing.
* **Authenticated state.** The incremental Merkle tree (flat array, dirty set, rank index)
  returns, in every run of its operations, the root of a rebuild from scratch, and a proof is
  accepted exactly when it is the path of an account that is in the tree with that value.
* **Consensus.** The fork tree with its votes, its heaviest path, its pruning and its orphan
  reconnection; fork switching; the vote tower; proof of history; the leader schedule; epoch
  rewards; epoch stakes.
* **Indexed pools.** The mempool and the gossip table, whose secondary indexes are proved to be
  the exact images of one collection, with what whole batches of insertions leave behind.

Code that updates state in place is modelled by classes and loops, each proved against a
function of the old state; the properties are then proved of those functions, over every run
where the code has runs. Where iteration follows a hash map the model picks the next element
arbitrarily, so nothing depends on the order. Hash functions are free constructors: digests are
equal exactly when the hashed inputs are, and an input is a list of bytes and whole 64-byte
values. Addresses, block hashes and identities are numbers, compared as the source compares
their bytes. 64-bit arithmetic is written out wherever it saturates, wraps or is checked.
Automatic induction is switched off in every lemma: inductive proofs are written out.

## What the proofs found

* A compiled message means what its instructions mean if and only if it has at most 256 keys
  and at most 255 signers (indices and header counts are bytes); nothing checks this. Its payer
  is read-only exactly if the number of writable signers is a multiple of 256 and the number of
  signers is not; `CompileCrowd` compiles such a message, with 257 signers. A key
  first named as a program and later as a writable account ends up writable, although a comment
  in core/src/message.rs says that program accounts are not writable.
* Parallel execution equals sequential execution, whatever the accounts are, exactly if no
  transaction names the read-only payer of an earlier transaction of its batch: the scheduler
  takes such a payer to be only read, and the fee is still written. `AgreesIffApart` states
  this, for any given programs and budget parser, of slots of signed, in-bounds messages
  without repeated keys whose budgets parse. Compiled messages that fit have writable payers,
  so for them the two always agree (`CompiledApart`); `CompiledPayerDiverges` compiles two
  messages, one of them too large, on which they do not.
* The fee a successful transaction reports is taken from the committed state exactly if the fee
  is zero or the payer's account was changed by something other than the fee:
  the snapshot that decides what changed is taken after the fee. `FeeReachesState` states this,
  and the matching condition for failing transactions; `ReportedFeeNeverTaken` gives a
  successful transaction that writes nothing, and `HalfTransferWritten` a transfer to a
  read-only account, which fails after the debit and writes it.
* The owner index is exact for every owner but the all-zero one. An account of the all-zero
  owner is in it exactly if the account belonged to another owner before.
* The lockout comment in consensus/src/tower.rs says a lockout expires when slot + 2^count is at
  most the vote slot; the code lets it expire only when it is smaller. The model follows the
  code. A vote is accepted exactly if its slot is above every slot voted on before.
* A slot that arrives before its parent is never listed by it unless orphans are reconnected,
  and nothing in the repository but a test calls the reconnection. Moving the root then prunes such slots
  while their votes stay counted. Subtree stakes that were exact stay within the votes below
  exactly if every slot with votes below the new root is listed, and then they stay exact;
  stakes that were within stay so under the same condition. It holds in every run in which
  blocks wait for their parents, as the replay loop makes them, and for every connected slot
  right after a reconnection.
* Reward conservation needs no assumption on the size of the point total: a total that does not
  fit in 128 bits makes a point worth nothing, and then nothing is paid.
* The switch threshold computes a percentage and cuts it to 64 bits. It is the 38 percent test
  unless the percentage leaves 64 bits and what is left of it is below 38.
* The check of proof-of-history entries by independent windows accepts repeated counts, which
  the sequential walk refuses. They part exactly on right hashes whose counts never fall and
  somewhere repeat. Ticks verify as plain entries
  exactly if no transaction was mixed in before them; with transactions, the chain of segments
  verifies.
* The total active stake is the sum of the validators' stakes exactly if that sum fits in 64
  bits before penalties, or if every validator's penalty covers its stake.
* Gossip tables that receive the same values in different orders agree exactly if no two
  different values tie for the newest under a label.

## Model

| member | source | states |
|---|---|---|
| Crypto.AccountTokensInjective | consensus/src/state_tree.rs:98-110 | what is hashed for an account determines its address and every field |
| Crypto.AccountLayout | consensus/src/state_tree.rs:98-110 | where each field stands in what is hashed, and that its bytes spell it |
| Messages.ScanInstructions | core/src/message.rs:25-55 | the scan yields each named key once in order of first mention, with the OR of the signer flags and the writable flag of its mentions |
| Messages.InvertOrder | core/src/message.rs:87-91 | the old-to-new table is the inverse of the sorted order |
| Messages.OrderByRole | core/src/message.rs:57-83 | sorting puts the payer first and groups keys into writable signers, read-only signers, writable and read-only others, with the header counts as boundaries |
| Messages.OrderPermutes | core/src/message.rs:70-83 | the sorted order is a permutation of the scanned keys |
| Messages.OrderStable | core/src/message.rs:70-83 | within one role the sort keeps the order of the scan |
| Messages.RolesByPosition | core/src/message.rs:137-158 | position and header counts recover each key's signer and writable flags |
| Messages.FaithfulIffFits | core/src/message.rs:18-129 | the compiled message resolves to the original programs, accounts and data with the right roles exactly if keys and signers fit in a byte |
| Messages.Compile | core/src/message.rs:18-129 | fails only on no instructions; keys are exactly those named, distinct, payer first, within a role in order of first mention; indices in bounds; faithful exactly if it fits, and then well formed |
| Messages.PayerWritableIff | core/src/message.rs:57-156 | the payer stays writable unless the writable signers are a multiple of 256 and the signers are not |
| Messages.CompileCrowd | core/src/message.rs:18-129 | compiles a message with 257 signers, whose payer is read-only |
| Messages.ProgramThenWritable | core/src/message.rs:28-55 | an instruction that also takes its program as a writable account compiles to a message that may write the program |
| Transactions.LoadOutcomeMeaning | runtime/src/account_loader.rs:16-69 | loading succeeds exactly for distinct keys within the data limit, and otherwise reports the first repeat or the first key over the limit |
| Transactions.Sanitize | runtime/src/transaction_executor.rs:21-42 | accepts exactly the messages whose program and account indices are in bounds |
| Transactions.CheckInvariants | runtime/src/transaction_context.rs:191-218 | passes exactly if total lamports and executable flags are kept and only writable accounts changed; names a lamport mismatch first, then the first read-only change |
| Transactions.DeltasInFootprint | runtime/src/transaction_executor.rs:60-281 | on every path the deltas touch only the payer and writable keys, each once, and the recorded originals are the loaded accounts |
| Transactions.Outcome | runtime/src/transaction_executor.rs:60-281 | which error a transaction is refused with, in order of precedence and without effect; otherwise fee, error, units and balances are those of its run |
| Transactions.SucceedsIff | runtime/src/transaction_executor.rs:283-308 | a run ends without error on a machine exactly if each instruction, paid for, takes the machine the one before left and the last leaves that one |
| Transactions.RunTrace | runtime/src/transaction_executor.rs:283-308 | every run goes through such machines up to its end or to the failure of the first instruction that fails |
| Transactions.TransferWrites | runtime/src/processors/system.rs:122-163 | a system transfer that succeeds writes exactly the debited and the credited account, with the fee off the payer, and nothing if it moves nothing |
| Transactions.ReportedConservation | runtime/src/transaction_executor.rs:174-281 | a successful transaction's reported balances drop by exactly the fee; a refused one reports no change and no fee |
| Transactions.FeeReachesState | runtime/src/transaction_executor.rs:165-281 | exactly when the committed lamports drop by the fee, on success and on failure |
| Transactions.ReportedFeeNeverTaken | runtime/src/transaction_executor.rs:174-265 | a transaction that succeeds, reports a fee and writes nothing |
| Transactions.HalfTransferWritten | runtime/src/transaction_executor.rs:266-280 | a transfer to a read-only account fails after the debit, and the payer is written without what it sent |
| Transactions.MeterExact | runtime/src/compute_meter.rs:17-28 | a series of charges is paid exactly if the meter holds its sum, and otherwise leaves it empty |
| Transactions.RunIsMetered | runtime/src/transaction_executor.rs:283-308 | instructions that all succeed could pay their base charges alone, leave at most what those leave, and called no reserved program |
| Transactions.FreeRunIsCharges | runtime/src/program_dispatch.rs:20-46 | with programs that spend nothing the instructions run as their base charges do, and succeed exactly if the meter holds the sum |
| Transactions.SuccessIsMetered | runtime/src/program_dispatch.rs:20-46 | a success paid for its signatures and for every instruction within its limit, and called no reserved program |
| Transactions.CommittedOnSuccess | runtime/src/transaction_context.rs:118-125 | committing the changes of a success gives the final accounts, with the payer's old account when it only paid the fee |
| TransactionExecutor.LoadAccounts | runtime/src/account_loader.rs:16-69 | the loop over seen keys and running size computes the load outcome |
| TransactionExecutor.TransactionContext.ExecuteInstructions | runtime/src/transaction_executor.rs:283-308 | each instruction runs on what the ones before it left, up to the first error, which leaves the accounts as they are then |
| TransactionExecutor.TransactionContext.VerifyInvariants | runtime/src/transaction_context.rs:191-218 | the loop returns the outcome of the invariant check |
| TransactionExecutor.ExecuteTransaction | runtime/src/transaction_executor.rs:60-281 | the staged execution is a function of the transaction and of the accounts at its keys |
| Scheduler.ExtractAccessSet | runtime/src/scheduler.rs:39-53 | the two lists hold exactly the write set and the read set |
| Scheduler.Schedule | runtime/src/scheduler.rs:68-112 | the batches are the in-order greedy partition into non-empty conflict-free runs |
| Scheduler.ScheduleUnique | runtime/src/scheduler.rs:68-112 | that partition is unique: each batch is as long as conflicts allow |
| SlotCommit.SlotCommitter.CommitResult | runtime/src/slot_commit.rs:70-157 | one result's effect on counters, hash input, write batch and cache |
| SlotCommit.SlotCommitter.TakeWriteBatch | runtime/src/slot_commit.rs:183-197 | hands over the accumulated writes and starts a new batch |
| SlotCommit.CommitKeepsAgreement | runtime/src/slot_commit.rs:70-157 | committing keeps cache over storage equal to storage after the batch |
| SlotCommit.DeltaTokensInjective | runtime/src/slot_commit.rs:119-128 | what is fed to the delta hasher determines the accounts written and their order |
| SlotCommit.CommitAllTotals | runtime/src/slot_commit.rs:70-103 | counters count, totals are sums over the results, statuses stand in order |
| SlotCommit.CommitAllDeltas | runtime/src/slot_commit.rs:119-132 | the hasher was fed all accounts written in order, and the cache holds the last of each |
| SlotCommit.StatusFound | runtime/src/slot_commit.rs:134-143 | under a transaction hash stands the outcome of the last result committed under it |
| SlotCommit.StatusKept | runtime/src/slot_commit.rs:134-143 | no other hash gets or loses a status |
| SlotCommit.SignatureFound | runtime/src/slot_commit.rs:145-155 | under an address, slot and index stands the last result that wrote the address under that index, and nothing else is added |
| SlotCommit.ReadThroughCache | runtime/src/account_loader.rs:44-63 | reading through the cache is reading the storage the batch would leave |
| SlotCommit.WriteKeepsOwners | storage/src/owner_index.rs:31-51 | a write that names the current account keeps the owner index exact, and leaves an entry of the zero owner exactly if it hands it an account that was owned |
| SlotCommit.CommitNamesCurrent | runtime/src/slot_commit.rs:70-157 | committing a result appends writes that each name the account a reader would find just before |
| SlotCommit.ZeroOwnerIff | storage/src/owner_index.rs:31-51 | after any such writes the index is exact for every other owner, and holds an account of the zero owner exactly if it was owned before |
| SlotCommit.IndexFromEmpty | storage/src/owner_index.rs:31-51 | from the empty store on, exactly if some write gave it to another owner |
| SlotCommit.ZeroOwnerUnindexed | storage/src/owner_index.rs:31-51 | one account of the all-zero owner, stored without an index entry and, once handed to an owner and back, with one |
| SlotCommit.SortedEntriesList | runtime/src/slot_commit.rs:200-218 | the final deltas list each touched address once, in order, with its last value |
| SlotCommit.SortedEntriesUnique | runtime/src/slot_commit.rs:200-218 | no other list does |
| SlotCommit.Storage.Write | storage/src/storage.rs:47-63 | a batch takes effect as its writes in order |
| SlotExecution.ExecuteSlot | runtime/src/batch_executor.rs:31-72 | the sequential loop and its single write |
| SlotExecution.FlushAll | runtime/src/slot_commit.rs:172-177 | storage takes on the committer's whole batch |
| SlotExecution.RunBatch | runtime/src/parallel_executor.rs:82-102 | a batch run in any order collects each result of its snapshot once |
| SlotExecution.SortRestoresOrder | runtime/src/parallel_executor.rs:104-111 | sorting by index gives the results in transaction order whatever order they came in |
| SlotExecution.BatchIsolated | runtime/src/scheduler.rs:68-112 | no transaction of a batch can change an account that a later one names, unless it is a read-only payer |
| SlotExecution.SnapshotIsCurrent | runtime/src/parallel_executor.rs:60-131 | the snapshot taken before a batch shows each of its transactions what sequential execution would |
| SlotExecution.ParallelEqualsSequential | runtime/src/parallel_executor.rs:60-131 | the batches lead to the ledger of sequential execution when no batch names a read-only payer of its own |
| SlotExecution.AgreesIffApart | runtime/src/parallel_executor.rs:60-131 | with given programs and budget parser they do so for all accounts exactly in that case |
| SlotExecution.SharedPayerDiverges | runtime/src/parallel_executor.rs:73-113 | from the first shared read-only payer on, the writes differ |
| SlotExecution.WritableApart | core/src/message.rs:70-83 | slots with writable payers are of that kind |
| SlotExecution.CompiledApart | core/src/message.rs:18-129 | slots of compiled messages have writable payers exactly if no header is cut, so all that fit are of that kind |
| SlotExecution.CompiledPayerDiverges | runtime/src/parallel_executor.rs:60-131 | two compiled messages, scheduled together, that do not run as in turn |
| SlotExecution.RunOfUnique | runtime/src/parallel_executor.rs:60-218 | schedule and ledger are determined, so immediate and deferred execution give one result and one batch |
| SlotExecution.ExecuteSlotParallel | runtime/src/parallel_executor.rs:60-131 | returns and stores what the schedule's batches lead to, which is the result of sequential execution when payers stay apart |
| SlotExecution.ExecuteSlotDeferred | runtime/src/parallel_executor.rs:158-218 | returns the same result and the same batch, and leaves the storage alone |
| SlotExecution.ReadonlyPayerDiverges | runtime/src/parallel_executor.rs:60-131 | two transactions with a read-only payer, scheduled together, that do not run as in turn |
| SlotExecution.RunKeepsAgreement | runtime/src/slot_commit.rs:70-157 | throughout a sequential slot the cache agrees with the storage the batch would leave |
| SlotExecution.BatchesKeepAgreement | runtime/src/parallel_executor.rs:73-117 | after every parallel batch it does too |
| SlotExecution.RunKeepsOwners | storage/src/account_index.rs:60-85 | a slot's batch keeps the owner index exact, and indexes an account of the zero owner exactly if it was owned before |
| SlotExecution.RunCounts | runtime/src/slot_commit.rs:70-103 | every transaction is counted once, as a success or a failure, with its status; fees and units are the sums over the results |
| SlotExecution.SlotReport | runtime/src/slot_commit.rs:200-218 | what a slot reports: counts, sums, the hash of everything written, each touched address once with its last account, every status |
| SlotExecution.SlotHashBinds | runtime/src/slot_commit.rs:119-201 | two slots have one delta hash exactly if they wrote the same accounts in the same order |
| SlotExecution.SlotStatusFound | runtime/src/slot_commit.rs:134-143 | after the slot a reader finds under a hash the outcome of the last transaction of that hash |
| SlotExecution.SlotSignatureFound | runtime/src/slot_commit.rs:145-155 | and under an address, the slot and an index exactly the transaction of that index, if it wrote the address |
| Merkle.HashInjective | crypto/src/merkle.rs:5-11 | leaf and inner hashes are injective and never meet |
| Merkle.BuildNodes | crypto/src/merkle.rs:21-56 | building bottom up fills the flat array with the tree over the padded leaves, each node the hash of its left and right child |
| Merkle.FlatNode | crypto/src/merkle.rs:36-56 | in such an array the node at depth d and offset j is the hash of its whole subtree |
| Merkle.NewTree | crypto/src/merkle.rs:21-56 | the first node is the Merkle root of the leaves |
| Merkle.ProveLeaf | crypto/src/merkle.rs:66-84 | every leaf, and only a leaf, gets its honest path |
| Merkle.VerifyPath | crypto/src/merkle.rs:94-106 | verification folds the path from the leaf and compares with the root |
| Merkle.AcceptedIffHonest | crypto/src/merkle.rs:94-106 | a path is accepted exactly if it is the honest path of a position holding that leaf, whatever its length |
| StateTrees.AccountLeafInjective | consensus/src/state_tree.rs:98-110 | leaf digests determine address and account and are never the padding |
| StateTrees.ProofAcceptedIff | consensus/src/state_tree.rs:248-266 | a proof is accepted exactly if the account is in the state with that value and the proof is its path; nothing is accepted against the empty state |
| StateTrees.VerifyProof | consensus/src/state_tree.rs:248-266 | the verifying fold decides acceptance |
| StateTrees.UpdateKeepsIncremental | consensus/src/state_tree.rs:150-178 | writing a leaf and marking its ancestors keeps every clean inner node matching its children |
| StateTrees.FlushNodes | consensus/src/state_tree.rs:341-358 | rehashing the dirty nodes, highest index first, leaves a tree without stale nodes |
| StateTrees.IndexKeys | consensus/src/state_tree.rs:362-395 | the index gives each address its rank |
| StateTrees.StateTree.constructor | consensus/src/state_tree.rs:120-130 | the empty tree |
| StateTrees.StateTree.FromStorage | consensus/src/state_tree.rs:274-303 | holds the stored accounts, the last of repeated ones |
| StateTrees.StateTree.Update | consensus/src/state_tree.rs:150-178 | the tree holds the updated accounts and stays consistent |
| StateTrees.StateTree.Remove | consensus/src/state_tree.rs:182-193 | the account is gone and the tree stays consistent |
| StateTrees.StateTree.MarkAncestorsDirty | consensus/src/state_tree.rs:312-319 | exactly the ancestors become dirty |
| StateTrees.StateTree.FullRebuild | consensus/src/state_tree.rs:362-395 | nodes and ranks are those of the current leaves |
| StateTrees.StateTree.Root | consensus/src/state_tree.rs:196-205 | the reference root of the accounts held |
| StateTrees.StateTree.Proof | consensus/src/state_tree.rs:211-244 | exactly the accounts held get a proof, with rank and size, and it verifies against the root |
| StateTrees.Replay | consensus/src/state_tree.rs:150-244 | in every run each root and proof asked for is the one of the accounts at that point |
| BlockProduction.TreeFollowsStorage | validator/src/block_producer.rs:80-97 | feeding the slot's deltas to the tree gives the accounts in storage |
| BlockProduction.ProduceBlock | validator/src/block_producer.rs:70-97 | the state root in a block is that of the storage its schedule's batches lead to, sequential execution's when payers stay apart |
| Towers.SplitExpired | consensus/src/tower.rs:67-76 | filtering the expired lockouts is popping the stack |
| Towers.ActiveIsKept | vote-program/src/lib.rs:43-51 | in a nested tower a lockout is active exactly if it survives popping |
| Towers.PushKeepsWellFormed | consensus/src/tower.rs:47-127 | an accepted vote keeps slots increasing, counts decreasing to one, spans nested and lockouts above the root; it roots at most the lowest, which is above the old root |
| Towers.PushIsAfterVote | consensus/src/tower.rs:65-127 | an accepted vote keeps exactly the lockouts that last to it, each confirmed once more, and roots the bottom exactly if it lasts and had 30 confirmations |
| Towers.ConsecutiveVotes | consensus/src/tower.rs:65-127 | votes on consecutive slots leave the last 30 of them with counts down to one, and from the 31st on each roots one slot |
| Towers.DepthBound | consensus/src/tower.rs:93-116 | a well-formed tower has at most 30 lockouts |
| Towers.Tower.CheckVoteLockout | consensus/src/tower.rs:130-140 | passes exactly if every vote in the tower is below the slot, and names the first that is not |
| Towers.Tower.ProcessVote | consensus/src/tower.rs:47-127 | accepted exactly above root and last vote; then every lockout that lasts is confirmed once more, the others are handed back, and at most one slot is rooted; refused with its reason and without change |
| Towers.RunInvariant | consensus/src/tower.rs:47-127 | in every run the tower is well formed and its top is the highest slot voted on |
| Towers.AcceptedAreRecords | consensus/src/tower.rs:47-127 | in every run a vote is accepted exactly if it is above all earlier ones |
| Towers.RootRises | consensus/src/tower.rs:93-116 | in every run the root never falls |
| Towers.VoteAll | consensus/src/tower.rs:47-127 | a run of the class accepts exactly the record slots and roots strictly increasing slots |
| ForkTrees.AncestryMeaning | consensus/src/fork_choice.rs:296-312 | the walk lists exactly the ancestors, from high to low, each the parent of the one before |
| ForkTrees.InsertShape | consensus/src/fork_choice.rs:96-141 | adding a slot keeps parent links, child lists and connection flags consistent |
| ForkTrees.PruneShape | consensus/src/fork_choice.rs:227-282 | moving the root keeps them consistent |
| ForkStakes.VoteAccounts | consensus/src/fork_choice.rs:152-191 | after a vote every stake is still the capped sum over a set of distinct voters |
| ForkStakes.VoteKeepsCredit | consensus/src/fork_choice.rs:178-189 | a vote keeps each node's voters within, or equal to, those who voted below it |
| ForkStakes.InsertKeepsCredit | consensus/src/fork_choice.rs:96-141 | a new slot keeps them within, and without orphans equal to, those who voted below |
| ForkStakes.PruneExactIff | consensus/src/fork_choice.rs:227-282 | from exact credit, moving the root keeps it within, and exact, exactly if no slot with votes below the new root is unlisted |
| ForkStakes.PruneKeepsCredit | consensus/src/fork_choice.rs:227-282 | moving the root keeps credit within, or exact, when no slot with votes below the new root is unlisted |
| ForkStakes.UnlistedVoteOutlivesItsNode | consensus/src/fork_choice.rs:239-252 | a tree in which a pruned slot's vote stays counted |
| ForkStakes.ConflictingForksShareNoVoter | consensus/src/fork_choice.rs:152-191 | two slots on different forks share no voter, and their stakes together are within the stake that voted |
| ForkStakes.AncestorOutweighs | consensus/src/fork_choice.rs:178-189 | with exact credit an ancestor's subtree stake is at least its descendant's |
| ForkSteps.HeaviestPathUnique | consensus/src/fork_choice.rs:203-221 | the tree alone determines the heaviest path |
| ForkSteps.MajorityTaken | consensus/src/fork_choice.rs:203-221 | a child with more than half of the stake voted below its parent is taken, unless the rest reaches 64 bits |
| ForkSteps.SiblingStakes | consensus/src/fork_choice.rs:152-191 | two children of a node together have at most its voted stake |
| ForkSteps.ReconnectEnd | consensus/src/fork_choice.rs:330-368 | the finished pass connects exactly the nodes whose chain reaches a connected one, in a consistent tree |
| ForkSteps.ReconnectedAllListed | consensus/src/fork_choice.rs:330-368 | after it everything below a connected slot is listed below it |
| ForkChoice.ForkTree.constructor | consensus/src/fork_choice.rs:44-68 | a tree of one finalized root |
| ForkChoice.ForkTree.AddSlot | consensus/src/fork_choice.rs:96-141 | adds the slot under its parent or as an orphan, or refuses a known slot or a full tree; with a lower parent keeps the accounting |
| ForkChoice.ForkTree.AddVote | consensus/src/fork_choice.rs:152-191 | counts a voter's first vote on a present slot for its whole parent chain, and nothing else |
| ForkChoice.ForkTree.GetAncestry | consensus/src/fork_choice.rs:296-312 | the loop collects the parent chain |
| ForkChoice.ForkTree.ComputeBestFork | consensus/src/fork_choice.rs:195-221 | ends at the leaf of the one path from the root on which every step has at least the stake of each sibling and, at equal stake, the highest block hash |
| ForkChoice.ForkTree.CollectSubtree | consensus/src/fork_choice.rs:284-292 | the stack walk ends and reaches exactly the nodes listed below its start |
| ForkChoice.ForkTree.SetRoot | consensus/src/fork_choice.rs:227-282 | survivors are exactly the listed subtree, the pruned list is exactly the rest without repeats, voters below the root are forgotten; what it does to the accounting |
| ForkChoice.ForkTree.TryReconnectOrphans | consensus/src/fork_choice.rs:330-368 | connects exactly the nodes whose chain reaches a connected one, each then listed by its parent |
| ForkChoice.Drive | consensus/src/replay_fork_switch.rs:14-25 | in every run in which blocks wait for their parents, every subtree stake is the capped sum over exactly the voters below |
| ForkChoice.DriveFreely | consensus/src/fork_choice.rs:96-282 | in any run nobody is counted twice; if every root move finds no vote unlisted, no subtree stake exceeds the votes below |
| ForkChoice.DriveReconnecting | consensus/src/fork_choice.rs:227-368 | in any run that moves the root only to connected slots after a reconnection, no subtree stake exceeds the votes below |
| ForkSwitch.SwitchThresholdIff | consensus/src/tower.rs:147-161 | the threshold is the 38 percent test unless the percentage leaves 64 bits and what is left is below 38 |
| ForkSwitch.SwitchWithinTotal | consensus/src/tower.rs:147-161 | it is the 38 percent test for every stake within the total |
| ForkSwitch.SwitchThresholdWraps | consensus/src/tower.rs:147-161 | beyond 64 bits it can refuse a majority |
| ForkSwitch.FirstSharedIsDeepest | consensus/src/replay_fork_switch.rs:36-41 | the first shared slot of one chain is the deepest shared ancestor |
| ForkSwitch.CheckForkSwitch | consensus/src/replay_fork_switch.rs:30-72 | a plan exists exactly if best and tip fork below a shared ancestor and tower or stake allow it; it goes back to the deepest shared ancestor and replays child by child to the best slot |
| ProofOfHistory.VerifyPohEntries | consensus/src/poh.rs:119-141 | accepts exactly increasing counts with the hash iterated that often, and names the first bad entry |
| ProofOfHistory.VerifyPohChain | consensus/src/poh.rs:146-178 | accepts exactly the chains whose every segment leads to its hash, and names the first that does not |
| ProofOfHistory.BuildWindows | consensus/src/replay_block.rs:48-65 | one window per entry, or nothing when a count goes down |
| ProofOfHistory.WindowsMeaning | consensus/src/replay_block.rs:48-65 | independent windows establish the hashes counted from the parent |
| ProofOfHistory.WindowsAgreeWithWalk | consensus/src/replay_block.rs:44-88 | windows and walk part exactly on right hashes whose counts never fall and somewhere repeat |
| ProofOfHistory.RepeatedCountSplitsThem | consensus/src/replay_block.rs:48-65 | windows accept a repeated count |
| ProofOfHistory.EntriesAccepted | consensus/src/replay_block.rs:44-88 | whichever check decides, what it accepts has the right hashes, and good chains are accepted |
| ProofOfHistory.PlainIffNoMix | consensus/src/poh.rs:65-73 | a log of hashes is the plain iteration exactly if nothing was mixed in |
| ProofOfHistory.ReplayInjective | consensus/src/poh.rs:55-73 | logs of one length from one start lead to one hash exactly if they are equal |
| ProofOfHistory.PohRecorder.constructor | consensus/src/poh.rs:35-42 | a fresh recorder |
| ProofOfHistory.PohRecorder.HashIterations | consensus/src/poh.rs:55-61 | the hash after that many more steps |
| ProofOfHistory.PohRecorder.Record | consensus/src/poh.rs:65-73 | mixes one digest in and reports count and hash |
| ProofOfHistory.PohRecorder.Tick | consensus/src/poh.rs:77-89 | grinds to the next multiple of a positive tick length |
| ProofOfHistory.PohRecorder.ProduceSlot | consensus/src/poh.rs:93-101 | the ticks count up and verify exactly if nothing had been mixed in |
| ProofOfHistory.PohRecorder.Reset | consensus/src/poh.rs:104-108 | starts over from a given hash |
| ProofOfHistory.RecordChain | consensus/src/poh.rs:146-178 | in every run of grinding, recording and ticking the recorded chain verifies |
| LeaderSchedules.ExactlyProportional | consensus/src/leader_schedule.rs:134-158 | over whole rounds of the total stake each validator is selected by exactly its stake in draws per round |
| LeaderSchedules.AcceptedProportional | consensus/src/leader_schedule.rs:134-158 | the accepted draws that lead to a validator number its stake times u64::MAX / total stake |
| LeaderSchedules.SelectedIsCounted | consensus/src/leader_schedule.rs:146-158 | the validator selected is the one the draw is counted for |
| LeaderSchedules.LimitIsHighest | consensus/src/leader_schedule.rs:134-136 | the limit is the highest multiple of the total stake within 64 bits |
| LeaderSchedules.StateSteps | consensus/src/leader_schedule.rs:90-145 | the state of a draw is its number mixed into the state before, and then refused values mixed in up to the first accepted one |
| LeaderSchedules.StatesNeverRepeat | consensus/src/leader_schedule.rs:85-145 | no state of the generator occurs for two draws of an epoch or in two epochs of one seed |
| LeaderSchedules.PickValidator | consensus/src/leader_schedule.rs:123-159 | redraws to the first accepted value and selects the validator whose stretch holds it |
| LeaderSchedules.ActiveStakes | consensus/src/leader_schedule.rs:65-68 | exactly the validators with stake, ordered by identity |
| LeaderSchedules.SumStakes | consensus/src/leader_schedule.rs:75-78 | the checked sum, or nothing exactly on overflow |
| LeaderSchedules.ComputeSchedule | consensus/src/leader_schedule.rs:57-117 | one leader per slot, the draw of the slot's group of four; its two errors exactly when they apply |
| LeaderSchedules.LeadersHaveStake | consensus/src/leader_schedule.rs:65-66 | every leader is a validator with stake |
| LeaderSchedules.ScheduleDetermined | consensus/src/leader_schedule.rs:57-117 | active stakes, seed and length determine the schedule |
| LeaderSchedules.InputOrderIrrelevant | consensus/src/leader_schedule.rs:63-68 | with distinct identities the order of the stakes does not matter |
| Rewards.EarnedMeaning | consensus/src/rewards.rs:214-228 | the credits are those of the epoch's first entry less the credits before it, or none |
| Rewards.VoteMapMeaning | consensus/src/rewards.rs:119-120 | a vote account has the last state given for it |
| Rewards.PointsMeaning | consensus/src/rewards.rs:122-133 | points are the credits the voter earned times the stake |
| Rewards.TotalPoints | consensus/src/rewards.rs:122-133 | points are credits times stake, summed with a cap at 128 bits |
| Rewards.RewardsWithinInflation | consensus/src/rewards.rs:141-155 | the shares together never exceed the inflation, capped total or not |
| Rewards.ProductFits | consensus/src/rewards.rs:154-155 | no product of points and point value leaves 128 bits |
| Rewards.ShareIsProportional | consensus/src/rewards.rs:141-155 | a share is at most its exact proportion and below it by less than a lamport plus one per million points |
| Rewards.EntryPays | consensus/src/rewards.rs:161-182 | staker and validator together get the whole share, the validator its commission of it |
| Rewards.ShareOut | consensus/src/rewards.rs:143-186 | every share is split and filed, and the sum paid is exact |
| Rewards.EntriesAreShares | consensus/src/rewards.rs:148-182 | every entry is a delegation's share in the partition of its stake account |
| Rewards.SharesHaveEntries | consensus/src/rewards.rs:148-182 | every delegation that earns a lamport has its entry |
| Rewards.SharesPay | consensus/src/rewards.rs:158-182 | every entry names the stake account and voter of a delegation, their balance, commission and partition; every delegation that earns has one |
| Rewards.SharesOnce | consensus/src/rewards.rs:143-182 | with distinct stake accounts no account has two entries |
| Rewards.CalculateEpochRewards | consensus/src/rewards.rs:108-211 | errors exactly when they apply; otherwise all partitions together pay the whole inflation if anybody earns a lamport and nothing if nobody does; every entry pays a delegation, and every delegation that earns is paid, once if accounts are distinct, whichever entry takes the remainder |
| EpochStakes.Bank.SetStakeDelegation | consensus/src/bank_stake.rs:16-35 | registers exactly the delegations with ordered epochs and a rate of at most 100 percent |
| EpochStakes.EffectiveWithin | consensus/src/bank_stake.rs:100-111 | a warming or cooling delegation counts for at most its stake |
| EpochStakes.EffectiveMeaning | consensus/src/bank_stake.rs:100-111 | the rate of the stake in the first epoch, the rest of it in the last, all of it in between, to the lamport below |
| EpochStakes.Bank.Accumulate | consensus/src/bank_stake.rs:86-121 | every validator gets the capped sum over the active accounts that back it, in any order |
| EpochStakes.Bank.ApplyPenalties | consensus/src/bank_stake.rs:123-131 | every validator loses its penalty and the total what they lose |
| EpochStakes.Bank.RecalculateEpochStakes | consensus/src/bank_stake.rs:85-145 | exactly the validators that an active account backs have stake, the capped sum less their penalty; the total is their sum exactly if the gross stakes fit in 64 bits or every penalty covers its validator's stake |
| EpochStakes.FittingTotalIsSum | consensus/src/bank_stake.rs:85-145 | it is when the effective stakes of all active delegations fit in 64 bits |
| EpochStakes.OverflowingTotalFallsShort | consensus/src/bank_stake.rs:119-120 | a bank with two registered delegations whose total is half of what its validators have |
| PoolIndexes.SizesAgree | mempool/src/pool.rs:79-97 | the sizes the pool compares in its own check are always equal |
| PoolIndexes.FrontMeaning | mempool/src/pool.rs:343-383 | the keys drained are the first ones in price-then-arrival order, and the others stay |
| PoolIndexes.DrainInTwo | mempool/src/pool.rs:343-383 | draining twice is draining the sum once |
| Mempools.Mempool.constructor | mempool/src/pool.rs:163-171 | an empty pool of positive capacity |
| Mempools.Mempool.Insert | mempool/src/pool.rs:181-337 | each refusal exactly when it applies, decided by the entries; an accepted transaction takes the place of the worst one if the pool is full, and a refused one changes nothing |
| Mempools.Mempool.Discard | mempool/src/pool.rs:278-301 | taking an entry out keeps every index exact |
| Mempools.Mempool.DrainByPriority | mempool/src/pool.rs:343-383 | hands out the best transactions in order and keeps the rest |
| Mempools.Mempool.RemoveExpired | mempool/src/pool.rs:392-433 | keeps exactly the transactions that name a valid blockhash |
| Mempools.OfferAll | mempool/src/pool.rs:181-337 | after any batch of acceptable transactions the pool is full or complete, and everything in it beats everything left out |
| CrdsTables.CrdsTable.Insert | gossip/src/crds.rs:45-102 | refuses exactly oversized and stale values; a new label in a full table replaces the oldest insertion; the index stays the inverse of the orders |
| CrdsTables.CrdsTable.EvictOldest | gossip/src/crds.rs:106-113 | drops the entry with the lowest insertion order |
| CrdsTables.CrdsTable.ValuesSince | gossip/src/crds.rs:134-140 | exactly the present values inserted from the cursor on, in insertion order |
| CrdsTables.CrdsTable.PurgeOld | gossip/src/crds.rs:146-166 | removes exactly the older entries and counts them |
| CrdsTables.SharedLabel | gossip/src/crds_value.rs:66-74 | when two values compete for one place |
| CrdsTables.MergeAllNewest | gossip/src/crds.rs:45-102 | the contents are the newest value offered under every label |
| CrdsTables.Converges | gossip/src/crds.rs:45-102 | the same values in any order, with repetitions, give the same contents when no two tie for the newest of a label |
| CrdsTables.ConvergesIff | gossip/src/crds.rs:45-102 | all orders agree exactly in that case |
| CrdsTables.DeltaSync | gossip/src/crds.rs:134-140 | writing what a query from a cursor returns over a copy taken at that cursor gives the present contents |
| CrdsTables.InsertAll | gossip/src/crds.rs:45-140 | a table fed without eviction holds the merge of what it was fed, and what it then returns brings an earlier copy up to date |

## Left out

- SHA3-512, signatures and text encodings: hashing is a free constructor and signature validity is part of a transaction.
- Program processors, their internals, cross-program calls, return data and the program cache: an instruction's effect is any function of message, accounts and meter that keeps the number of accounts and does not raise the meter.
- Compute-budget parsing: the limits and the price it yields are given.
- Storage as history by slot, its errors and its file formats: storage is the latest account per address with an owner index, and writes do not fail.
- Widths of slot counters and totals, sequence numbers, insertion cursors and hash counts: they are unbounded here.
- TransactionExecutor.ExecuteTransaction: requires a key or an instruction, because on a message with neither the source looks up a payer that is not there.
- Overflow checks: the subtractions of header counts wrap around, as in a release build; a build with checks stops on a message whose read-only counts exceed what they are taken from.
- SlotExecution.AgreesIffApart: its converse is about signed, in-bounds messages without repeated keys whose budgets parse and whose fees one account could pay (fewer than 2^56 transactions), because refused or unpaid transactions write nothing.
- ForkChoice.Drive: its blocks, and those of DriveFreely and DriveReconnecting, have lower parents, which the source does not check and its parent walks need in order to end.
- ForkSwitch.CheckForkSwitch: does not model the sum over several alternative forks, because the only caller passes one.
- ProofOfHistory.PohRecorder.Tick: requires a positive tick length, because the source divides by it.
- ProofOfHistory.EntriesAccepted: assumes that a verifier that answers checks each window; the GPU itself is not modelled.
- LeaderSchedules.ComputeSchedule: requires that redrawing reaches an accepted value from any state when the stakes are positive and fit in 64 bits, because whether the source's loop ends depends on the hash; the number behind a digest is any function of it.
- Rewards.CalculateEpochRewards: the partition of a stake account is any function of it, and inflation rates are given.
- Mempools.OfferAll: assumes transactions that no check but the price can refuse, because otherwise the pool need not hold the best.
- CrdsTables.InsertAll: assumes room for everything, because eviction follows insertion order and not wallclocks.
- Interleavings inside one call of the mempool or of the gossip table: every call is one step.
- Epoch schedules with warmup, the slashing detector, the commitment tracker and vote-account updates.
- Gossip delivery, networking, RPC, the command line, genesis and metrics.
