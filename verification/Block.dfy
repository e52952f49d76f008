/** From a slot's transactions to its state root: the parallel executor's account deltas
    are fed to the state tree (validator/src/block_producer.rs, consensus/src/bank_state.rs). */
module BlockProduction {
  import opened Crypto
  import opened Transactions
  import opened SlotCommit
  import opened SlotExecution
  import opened StateTrees

  /** Writing a cache's sorted entries one by one is merging the cache. */
  lemma {:induction false} EntriesMerge(base: map<Address, Account>, cache: map<Address, Account>)
    ensures ApplyDeltas(base, SortedEntries(cache)) == base + cache
  {
    hide ApplyDeltas, SortedEntries;
    var e := SortedEntries(cache);
    SortedEntriesList(cache);
    forall a
      ensures a in ApplyDeltas(base, e) <==> a in base + cache
      ensures a in base + cache ==> ApplyDeltas(base, e)[a] == (base + cache)[a]
    {
      ApplyDeltasAt(base, e, a);
      if a in cache {
        var i :| 0 <= i < |e| && e[i].0 == a;
      }
    }
  }

  /** A tree that holds the stored accounts before a slot and is updated with the slot's
      deltas holds the accounts stored after it, for whatever transactions ran. */
  lemma {:induction false} TreeFollowsStorage(env: Env, txs: seq<Transaction>, s: Store, batches: seq<seq<nat>>,
      l: Ledger)
    requires WellBehaved(env) && Payable(txs) && RunOf(env, txs, s.accounts, batches, l)
    ensures ApplyDeltas(s.accounts, Finalize(l, env.slot).deltas) == ApplyBatch(s, l.batch).accounts
  {
    BatchesKeepAgreement(env, txs, s, batches, |batches|);
    hide ApplyDeltas, ApplyBatch, ParRun, SortedEntries, RunOf;
    EntriesMerge(s.accounts, l.cache);
  }

  /** One block: run the slot in parallel, update the tree, take the root.  The root is
      the from-scratch root of what is now stored; and what is stored is what the schedule's
      batches lead to. */
  method ProduceBlock(env: Env, txs: seq<Transaction>, storage: Storage, tree: StateTree)
    returns (r: SlotResult, root: Digest, ghost schedule: seq<seq<nat>>, ghost l: Ledger)
    requires WellBehaved(env) && Payable(txs)
    requires tree.Valid() && tree.accounts == storage.contents.accounts
    modifies storage, tree
    ensures tree.Valid() && tree.accounts == storage.contents.accounts
    ensures root == StateRoot(storage.contents.accounts)
    ensures RunOf(env, txs, old(storage.contents.accounts), schedule, l)
    ensures r == Finalize(l, env.slot) && storage.contents == ApplyBatch(old(storage.contents), l.batch)
  {
    hide ApplyDeltas, ApplyBatch, RunOf, StateRoot, LeavesOf, Incremental, Finalize;
    r, schedule, l := ExecuteSlotParallel(env, txs, storage);
    TreeFollowsStorage(env, txs, old(storage.contents), schedule, l);
    tree.Update(r.deltas);
    root := tree.Root();
  }
}
