/** Slot execution: the sequential executor (runtime/src/batch_executor.rs) and the two
    parallel ones (runtime/src/parallel_executor.rs), which run each scheduled batch
    against one snapshot of the cache and commit the results in transaction order. */
module SlotExecution {
  import opened Crypto
  import opened Messages
  import opened Ordered
  import opened Transactions
  import opened TransactionExecutor
  import opened Scheduler
  import opened SlotCommit

  /** Every transaction names a payer or is refused for its instructions. */
  ghost predicate Payable(txs: seq<Transaction>) {
    forall i :: 0 <= i < |txs| ==> Handled(txs[i].message)
  }

  /** Every payer may be written. */
  ghost predicate PayersWritable(txs: seq<Transaction>) {
    forall i :: 0 <= i < |txs| ==> |txs[i].message.accountKeys| > 0 && txs[i].message.IsWritable(0)
  }

  /** A payer that the scheduler takes to be only read is not named by the later message. */
  predicate PayerApart(earlier: Message, later: Message) {
    |earlier.accountKeys| > 0 && !earlier.IsWritable(0) ==> earlier.accountKeys[0] !in later.accountKeys
  }

  /** Among the first `n` of a batch no transaction names a read-only payer of an earlier one. */
  ghost predicate BatchApart(txs: seq<Transaction>, batch: seq<nat>, n: nat) {
    && n <= |batch| && (forall s :: 0 <= s < |batch| ==> batch[s] < |txs|)
    && forall s, t :: 0 <= s < t < n ==> PayerApart(txs[batch[s]].message, txs[batch[t]].message)
  }

  ghost predicate BatchesApart(txs: seq<Transaction>, batches: seq<seq<nat>>, b: nat) {
    b <= |batches| && forall c :: 0 <= c < b ==> BatchApart(txs, batches[c], |batches[c]|)
  }

  lemma {:induction false} WritableApart(txs: seq<Transaction>, batches: seq<seq<nat>>)
    requires PayersWritable(txs) && Schedules(txs, batches, |txs|)
    ensures Payable(txs) && BatchesApart(txs, batches, |batches|)
  {
    ScheduledInRange(txs, batches, |txs|);
  }

  /** Compiled messages have writable payers exactly if no header is cut, and in particular if
      their keys and signers fit; then no batch shares a read-only payer. */
  lemma {:induction false} CompiledApart(txs: seq<Transaction>, ixs: seq<seq<Instruction>>, payers: seq<Address>,
      batches: seq<seq<nat>>)
    requires |ixs| == |payers| == |txs| && Schedules(txs, batches, |txs|)
    requires forall i :: 0 <= i < |txs| ==> CompiledFrom(ixs[i], payers[i], txs[i].message)
    ensures PayersWritable(txs) <==> forall i :: 0 <= i < |txs| ==> !PayerCut(ixs[i], payers[i])
    ensures PayersWritable(txs) ==> BatchesApart(txs, batches, |batches|)
    ensures (forall i :: 0 <= i < |txs| ==> Fits(ixs[i], payers[i])) ==> PayersWritable(txs)
  {
    hide Faithful, Fits, PayerCut, Schedules, BatchApart;
    if PayersWritable(txs) {
      WritableApart(txs, batches);
    }
  }

  function ResultOf(env: Env, tx: Transaction, cache: map<Address, Account>,
      storage: map<Address, Account>): (r: TxResult)
    requires WellBehaved(env) && Handled(tx.message)
  {
    ExecuteOn(env, tx, Snapshot(cache, storage, tx.message.accountKeys), true)
  }

  /** The first `n` transactions one after another, each seeing the effects of all before. */
  function SeqRun(env: Env, txs: seq<Transaction>, storage: map<Address, Account>, n: nat): (l: Ledger)
    requires WellBehaved(env) && Payable(txs) && n <= |txs|
  {
    if n == 0 then EMPTY_LEDGER else
      var l := SeqRun(env, txs, storage, n - 1);
      Commit(l, n - 1, ResultOf(env, txs[n - 1], l.cache, storage), env.slot)
  }

  /** The first `t` transactions of a batch, all run against the cache at its start. */
  function BatchRun(env: Env, txs: seq<Transaction>, storage: map<Address, Account>, start: Ledger, batch: seq<nat>,
      t: nat): (l: Ledger)
    requires WellBehaved(env) && Payable(txs) && t <= |batch|
    requires forall s :: 0 <= s < |batch| ==> batch[s] < |txs|
  {
    if t == 0 then start else
      var l := BatchRun(env, txs, storage, start, batch, t - 1);
      Commit(l, batch[t - 1], ResultOf(env, txs[batch[t - 1]], start.cache, storage), env.slot)
  }

  function ParRun(env: Env, txs: seq<Transaction>, storage: map<Address, Account>, batches: seq<seq<nat>>,
      b: nat): (l: Ledger)
    requires WellBehaved(env) && Payable(txs) && b <= |batches|
    requires forall c, s :: 0 <= c < |batches| && 0 <= s < |batches[c]| ==> batches[c][s] < |txs|
  {
    if b == 0 then EMPTY_LEDGER else
      BatchRun(env, txs, storage, ParRun(env, txs, storage, batches, b - 1), batches[b - 1], |batches[b - 1]|)
  }

  // ---------------------------------------------------------------------------------
  // Non-interference

  /** What a transaction may touch is locked for writing by the scheduler, except for a
      read-only payer. */
  lemma {:induction false} TouchedIsLocked(msg: Message, a: Address)
    requires MayTouch(msg, a)
    ensures a in WriteSet(msg) || (a == msg.accountKeys[0] && !msg.IsWritable(0))
  {
    var i :| 0 <= i < |msg.accountKeys| && msg.accountKeys[i] == a && (i == 0 || msg.IsWritable(i));
  }

  lemma {:induction false} NamedIsLocked(msg: Message, i: nat)
    requires i < |msg.accountKeys|
    ensures msg.accountKeys[i] in WriteSet(msg) + ReadSet(msg)
  {
    if msg.IsWritable(i) {
      assert msg.accountKeys[i] in WriteSet(msg);
    } else {
      assert msg.accountKeys[i] in ReadSet(msg);
    }
  }

  lemma {:induction false} WouldConflict(later: Message, earlier: Message, a: Address)
    requires a in WriteSet(later) + ReadSet(later) && a in WriteSet(earlier)
    ensures Conflict(later, earlier)
  {
    if a in WriteSet(later) {
      assert a in WriteSet(later) * (WriteSet(earlier) + ReadSet(earlier));
    } else {
      assert a in ReadSet(later) * WriteSet(earlier);
    }
  }

  /** No transaction of a conflict-free batch touches a key that a later one names. */
  lemma {:induction false} BatchIsolated(txs: seq<Transaction>, batch: seq<nat>, s: nat, t: nat, i: nat)
    requires s < t < |batch| && BatchApart(txs, batch, t + 1) && ConflictFree(txs, batch)
    requires i < |txs[batch[t]].message.accountKeys|
    ensures !MayTouch(txs[batch[s]].message, txs[batch[t]].message.accountKeys[i])
  {
    var earlier, later := txs[batch[s]].message, txs[batch[t]].message;
    var a := later.accountKeys[i];
    assert PayerApart(earlier, later);
    if MayTouch(earlier, a) {
      TouchedIsLocked(earlier, a);
      NamedIsLocked(later, i);
      WouldConflict(later, earlier, a);
    }
  }

  /** A commit changes what a reader finds only at touched addresses. */
  lemma {:induction false} CommitUntouched(l: Ledger, index: nat, env: Env, tx: Transaction, accounts: seq<Account>,
      storage: map<Address, Account>, a: Address)
    requires WellBehaved(env) && Handled(tx.message) && |accounts| == |tx.message.accountKeys|
    requires !MayTouch(tx.message, a)
    ensures View(Commit(l, index, ExecuteOn(env, tx, accounts, true), env.slot).cache, storage, a) ==
              View(l.cache, storage, a)
  {
    DeltasInFootprint(env, tx, accounts, true);
    ApplyDeltasAt(l.cache, ExecuteOn(env, tx, accounts, true).deltas, a);
  }

  lemma {:induction false} BatchUntouched(env: Env, txs: seq<Transaction>, storage: map<Address, Account>,
      start: Ledger, batch: seq<nat>, t: nat, a: Address)
    requires WellBehaved(env) && Payable(txs) && t <= |batch|
    requires forall s :: 0 <= s < |batch| ==> batch[s] < |txs|
    requires forall s :: 0 <= s < t ==> !MayTouch(txs[batch[s]].message, a)
    ensures View(BatchRun(env, txs, storage, start, batch, t).cache, storage, a) == View(start.cache, storage, a)
  {
    hide Commit, ExecuteOn, View, MayTouch;
    if t == 0 {
    } else {
      BatchUntouched(env, txs, storage, start, batch, t - 1, a);
      var l, tx := BatchRun(env, txs, storage, start, batch, t - 1), txs[batch[t - 1]];
      CommitUntouched(l, batch[t - 1], env, tx, Snapshot(start.cache, storage, tx.message.accountKeys), storage, a);
    }
  }

  /** So each transaction of a batch reads from the snapshot what it would read in turn. */
  lemma {:induction false} SnapshotIsCurrent(env: Env, txs: seq<Transaction>, storage: map<Address, Account>,
      start: Ledger, batch: seq<nat>, t: nat)
    requires WellBehaved(env) && Payable(txs) && ConflictFree(txs, batch) && t < |batch|
    requires BatchApart(txs, batch, t + 1)
    ensures var keys := txs[batch[t]].message.accountKeys;
            Snapshot(start.cache, storage, keys) ==
                Snapshot(BatchRun(env, txs, storage, start, batch, t).cache, storage, keys)
  {
    var keys, l := txs[batch[t]].message.accountKeys, BatchRun(env, txs, storage, start, batch, t);
    forall i | 0 <= i < |keys| ensures View(start.cache, storage, keys[i]) == View(l.cache, storage, keys[i]) {
      forall s | 0 <= s < t ensures !MayTouch(txs[batch[s]].message, keys[i]) {
        BatchIsolated(txs, batch, s, t, i);
      }
      BatchUntouched(env, txs, storage, start, batch, t, keys[i]);
    }
  }

  // ---------------------------------------------------------------------------------
  // Parallel equals sequential

  lemma {:induction false} BatchIsSequential(env: Env, txs: seq<Transaction>, storage: map<Address, Account>,
      batch: seq<nat>, lo: nat, t: nat)
    requires WellBehaved(env) && Payable(txs) && ConflictFree(txs, batch) && t <= |batch| && BatchApart(txs, batch, t)
    requires forall s :: 0 <= s < |batch| ==> batch[s] == lo + s
    requires lo + |batch| <= |txs|
    ensures BatchRun(env, txs, storage, SeqRun(env, txs, storage, lo), batch, t) == SeqRun(env, txs, storage, lo + t)
  {
    hide Commit, ExecuteOn, Snapshot, Conflict;
    if t == 0 {
    } else {
      BatchIsSequential(env, txs, storage, batch, lo, t - 1);
      SnapshotIsCurrent(env, txs, storage, SeqRun(env, txs, storage, lo), batch, t - 1);
    }
  }

  lemma {:induction false} BatchesAreSequential(env: Env, txs: seq<Transaction>, storage: map<Address, Account>,
      batches: seq<seq<nat>>, b: nat)
    requires WellBehaved(env) && Payable(txs) && Schedules(txs, batches, |txs|) && BatchesApart(txs, batches, b)
    requires forall c, s :: 0 <= c < |batches| && 0 <= s < |batches[c]| ==> batches[c][s] < |txs|
    ensures |Concat(batches[..b])| <= |txs|
    ensures ParRun(env, txs, storage, batches, b) == SeqRun(env, txs, storage, |Concat(batches[..b])|)
  {
    hide Commit, ExecuteOn, Snapshot, Conflict, ConflictFree, BatchApart;
    if b == 0 {
    } else {
      BatchesAreSequential(env, txs, storage, batches, b - 1);
      BatchOffset(txs, batches, |txs|, b - 1);
      BatchIsSequential(env, txs, storage, batches[b - 1], |Concat(batches[..b - 1])|, |batches[b - 1]|);
    }
  }

  lemma {:induction false} ScheduledInRange(txs: seq<Transaction>, batches: seq<seq<nat>>, n: nat)
    requires Schedules(txs, batches, n)
    ensures forall c, s :: 0 <= c < |batches| && 0 <= s < |batches[c]| ==> batches[c][s] < |txs|
  {
    forall c, s | 0 <= c < |batches| && 0 <= s < |batches[c]| ensures batches[c][s] < |txs| {
      assert ConflictFree(txs, batches[c]);
    }
  }

  /** Running the scheduled batches leaves exactly the ledger the sequential loop leaves:
      the same hashed bytes, pending writes, counters, statuses and cache. */
  lemma {:induction false} ParallelEqualsSequential(env: Env, txs: seq<Transaction>, storage: map<Address, Account>,
      batches: seq<seq<nat>>)
    requires WellBehaved(env) && Payable(txs) && Schedules(txs, batches, |txs|) && BatchesApart(txs, batches, |batches|)
    requires forall c, s :: 0 <= c < |batches| && 0 <= s < |batches[c]| ==> batches[c][s] < |txs|
    ensures ParRun(env, txs, storage, batches, |batches|) == SeqRun(env, txs, storage, |txs|)
  {
    BatchesAreSequential(env, txs, storage, batches, |batches|);
    assert batches[..|batches|] == batches;
  }

  // ---------------------------------------------------------------------------------
  // What the sequential run keeps

  lemma {:induction false} RunKeepsAgreement(env: Env, txs: seq<Transaction>, s: Store, n: nat)
    requires WellBehaved(env) && Payable(txs) && n <= |txs|
    ensures CacheAgrees(SeqRun(env, txs, s.accounts, n), s)
  {
    hide Commit, ExecuteOn, CacheAgrees;
    if n > 0 {
      RunKeepsAgreement(env, txs, s, n - 1);
      var l := SeqRun(env, txs, s.accounts, n - 1);
      CommitKeepsAgreement(l, s, n - 1, ResultOf(env, txs[n - 1], l.cache, s.accounts), env.slot);
    } else {
      EmptyAgrees(s);
    }
  }

  lemma {:induction false} BatchKeepsAgreement(env: Env, txs: seq<Transaction>, s: Store, start: Ledger,
      batch: seq<nat>, t: nat)
    requires WellBehaved(env) && Payable(txs) && t <= |batch| && CacheAgrees(start, s)
    requires forall i :: 0 <= i < |batch| ==> batch[i] < |txs|
    ensures CacheAgrees(BatchRun(env, txs, s.accounts, start, batch, t), s)
  {
    hide Commit, ExecuteOn, CacheAgrees;
    if t == 0 {
    } else {
      BatchKeepsAgreement(env, txs, s, start, batch, t - 1);
      var l := BatchRun(env, txs, s.accounts, start, batch, t - 1);
      var r := ResultOf(env, txs[batch[t - 1]], start.cache, s.accounts);
      CommitKeepsAgreement(l, s, batch[t - 1], r, env.slot);
    }
  }

  /** Batches keep cache and pending writes in agreement too, whatever they contain. */
  lemma {:induction false} BatchesKeepAgreement(env: Env, txs: seq<Transaction>, s: Store, batches: seq<seq<nat>>,
      b: nat)
    requires WellBehaved(env) && Payable(txs) && b <= |batches|
    requires forall c, i :: 0 <= c < |batches| && 0 <= i < |batches[c]| ==> batches[c][i] < |txs|
    ensures CacheAgrees(ParRun(env, txs, s.accounts, batches, b), s)
  {
    hide BatchRun, CacheAgrees;
    if b == 0 {
      EmptyAgrees(s);
    } else {
      BatchesKeepAgreement(env, txs, s, batches, b - 1);
      BatchKeepsAgreement(env, txs, s, ParRun(env, txs, s.accounts, batches, b - 1), batches[b - 1], |batches[b - 1]|);
    }
  }

  lemma {:induction false} EmptyAgrees(s: Store)
    ensures CacheAgrees(EMPTY_LEDGER, s)
  {
    assert s.accounts + map[] == s.accounts;
  }

  lemma {:induction false} RunNamesCurrent(env: Env, txs: seq<Transaction>, s: Store, n: nat)
    requires WellBehaved(env) && Payable(txs) && n <= |txs|
    ensures AllNameCurrent(s, SeqRun(env, txs, s.accounts, n).batch)
  {
    hide ExecuteOn, Commit, CacheAgrees, AllNameCurrent, View, Snapshot, ByKey, ApplyBatch;
    if n == 0 {
      RecordsNameCurrent(s, []);
    } else {
      RunNamesCurrent(env, txs, s, n - 1);
      RunKeepsAgreement(env, txs, s, n - 1);
      var l, tx := SeqRun(env, txs, s.accounts, n - 1), txs[n - 1];
      var keys := tx.message.accountKeys;
      var r, mid := ResultOf(env, tx, l.cache, s.accounts), ApplyBatch(s, l.batch);
      DeltasInFootprint(env, tx, Snapshot(l.cache, s.accounts, keys), true);
      forall t | 0 <= t < |r.deltas|
        ensures r.deltas[t].0 in r.loaded && r.loaded[r.deltas[t].0] == View(map[], mid.accounts, r.deltas[t].0)
      {
        var a := r.deltas[t].0;
        assert MayTouch(tx.message, a);
        var i :| 0 <= i < |keys| && keys[i] == a;
        ReadThroughCache(l, s, a);
      }
      CommitNamesCurrent(s, l, n - 1, r, env.slot);
    }
  }

  /** A slot keeps the owner index exact for every owner but the zero one, and indexes an
      account of the zero owner exactly if it was owned before or during the slot. */
  lemma {:induction false} RunKeepsOwners(env: Env, txs: seq<Transaction>, s: Store, n: nat)
    requires WellBehaved(env) && Payable(txs) && n <= |txs| && OwnersExact(s)
    ensures IndexAfter(s, SeqRun(env, txs, s.accounts, n).batch)
  {
    hide SeqRun, OwnersExact, AllNameCurrent, IndexAfter;
    RunNamesCurrent(env, txs, s, n);
    ZeroOwnerIff(s, SeqRun(env, txs, s.accounts, n).batch);
  }

  // ---------------------------------------------------------------------------------
  // What a slot adds up to

  /** The results of the first `n` transactions run in turn. */
  function SeqResults(env: Env, txs: seq<Transaction>, storage: map<Address, Account>,
      n: nat): (r: seq<(nat, TxResult)>)
    requires WellBehaved(env) && Payable(txs) && n <= |txs|
    ensures |r| == n
  {
    if n == 0 then [] else
      SeqResults(env, txs, storage, n - 1)
      + [(n - 1, ResultOf(env, txs[n - 1], SeqRun(env, txs, storage, n - 1).cache, storage))]
  }

  lemma {:induction false} SeqResultAt(env: Env, txs: seq<Transaction>, storage: map<Address, Account>, n: nat, i: nat)
    requires WellBehaved(env) && Payable(txs) && i < n <= |txs|
    ensures var r := SeqResults(env, txs, storage, n)[i];
            && r.0 == i && r.1.txHash == txs[i].hash
            && r.1 == ResultOf(env, txs[i], SeqRun(env, txs, storage, i).cache, storage)
  {
    hide ResultOf, SeqRun;
    if i == n - 1 {
      ResultHash(env, txs[i], SeqRun(env, txs, storage, i).cache, storage);
    } else {
      SeqResultAt(env, txs, storage, n - 1, i);
    }
  }

  lemma {:induction false} ResultHash(env: Env, tx: Transaction, cache: map<Address, Account>,
      storage: map<Address, Account>)
    requires WellBehaved(env) && Handled(tx.message)
    ensures ResultOf(env, tx, cache, storage).txHash == tx.hash
  {
    hide ExecuteOn, RefusedFor, ChargedEnding;
    Outcome(env, tx, Snapshot(cache, storage, tx.message.accountKeys), true);
  }

  /** The sequential run commits its results one by one. */
  lemma {:induction false} SeqRunCommits(env: Env, txs: seq<Transaction>, storage: map<Address, Account>, n: nat)
    requires WellBehaved(env) && Payable(txs) && n <= |txs|
    ensures SeqRun(env, txs, storage, n) == CommitAll(SeqResults(env, txs, storage, n), env.slot)
  {
    hide Commit, ResultOf;
    if n == 0 {
    } else {
      SeqRunCommits(env, txs, storage, n - 1);
      var results := SeqResults(env, txs, storage, n);
      assert results[..n - 1] == SeqResults(env, txs, storage, n - 1);
    }
  }

  /** Every transaction is counted once, as what it is, and has its status; fees and units are
      the sums over the results. */
  lemma {:induction false} RunCounts(env: Env, txs: seq<Transaction>, storage: map<Address, Account>, n: nat)
    requires WellBehaved(env) && Payable(txs) && n <= |txs|
    ensures var l, results := SeqRun(env, txs, storage, n), SeqResults(env, txs, storage, n);
            && l.executed == n == |l.statuses|
            && l.succeeded == |Successes(results)| && l.failed == n - |Successes(results)|
            && l.fees == Sum(Fees(results)) && l.compute == Sum(Units(results))
            && forall i :: 0 <= i < n ==> l.statuses[i] == (txs[i].hash, results[i].1.status)
  {
    hide SeqRun, ResultOf, CommitAll, Sum, Successes, Fees, Units;
    SeqRunCommits(env, txs, storage, n);
    CommitAllTotals(SeqResults(env, txs, storage, n), env.slot);
    forall i | 0 <= i < n ensures SeqResults(env, txs, storage, n)[i].1.txHash == txs[i].hash {
      SeqResultAt(env, txs, storage, n, i);
    }
  }

  /** What a slot reports: its counts and sums, the hash of what it wrote, each address it
      touched once with its last account, and every status in order. */
  lemma {:induction false} SlotReport(env: Env, txs: seq<Transaction>, storage: map<Address, Account>)
    requires WellBehaved(env) && Payable(txs)
    ensures var results := SeqResults(env, txs, storage, |txs|);
            var r := Finalize(SeqRun(env, txs, storage, |txs|), env.slot);
            && r.slot == env.slot && r.executed == |txs| == |r.statuses|
            && r.succeeded == |Successes(results)| && r.failed == |txs| - |Successes(results)|
            && r.fees == Sum(Fees(results)) && r.compute == Sum(Units(results))
            && r.deltaHash == Hashed(DeltaTokens(AllDeltas(results)))
            && ListsInOrder(ApplyDeltas(map[], AllDeltas(results)), r.deltas)
            && forall i :: 0 <= i < |txs| ==> r.statuses[i] == (txs[i].hash, results[i].1.status)
  {
    hide SeqRun, SeqResults, CommitAll, AllDeltas, DeltaTokens, ApplyDeltas, Sum, Successes, Fees, Units, ListsInOrder;
    var results := SeqResults(env, txs, storage, |txs|);
    RunCounts(env, txs, storage, |txs|);
    SeqRunCommits(env, txs, storage, |txs|);
    CommitAllDeltas(results, env.slot);
    SortedEntriesList(ApplyDeltas(map[], AllDeltas(results)));
    hide SortedEntries;
  }

  /** The hasher was fed exactly the accounts written, in the order of the writes, and two
      slots have one delta hash exactly if they wrote the same. */
  lemma {:induction false} SlotHashBinds(env: Env, txs: seq<Transaction>, storage: map<Address, Account>, env': Env,
      txs': seq<Transaction>, storage': map<Address, Account>)
    requires WellBehaved(env) && Payable(txs) && WellBehaved(env') && Payable(txs')
    ensures SeqRun(env, txs, storage, |txs|).hashed == DeltaTokens(AllDeltas(SeqResults(env, txs, storage, |txs|)))
    ensures Finalize(SeqRun(env, txs, storage, |txs|), env.slot).deltaHash ==
            Finalize(SeqRun(env', txs', storage', |txs'|), env'.slot).deltaHash <==>
              AllDeltas(SeqResults(env, txs, storage, |txs|)) == AllDeltas(SeqResults(env', txs', storage', |txs'|))
  {
    hide SeqRun, SeqResults, CommitAll, AllDeltas, Finalize, DeltaTokens;
    var a, b := SeqResults(env, txs, storage, |txs|), SeqResults(env', txs', storage', |txs'|);
    SeqRunCommits(env, txs, storage, |txs|);
    SeqRunCommits(env', txs', storage', |txs'|);
    CommitAllDeltas(a, env.slot);
    DeltaHashBinds(a, b, env.slot, env'.slot);
  }

  /** After the slot is written, a reader finds under a transaction's hash the outcome of the
      last transaction of that hash. */
  lemma {:induction false} SlotStatusFound(env: Env, txs: seq<Transaction>, s: Store, i: nat)
    requires WellBehaved(env) && Payable(txs) && i < |txs|
    requires forall j :: i < j < |txs| ==> txs[j].hash != txs[i].hash
    ensures var now := ApplyBatch(s, SeqRun(env, txs, s.accounts, |txs|).batch).statuses;
            var r := ResultOf(env, txs[i], SeqRun(env, txs, s.accounts, i).cache, s.accounts);
            && txs[i].hash in now
            && var meta := now[txs[i].hash];
               && meta.slot == env.slot && meta.status == r.status && meta.fee == r.fee
               && meta.preBalances == r.preBalances && meta.postBalances == r.postBalances
               && meta.computeUnits == r.computeUnits
  {
    hide SeqRun, ResultOf, SeqResults, CommitAll, ApplyBatch;
    var n, results := |txs|, SeqResults(env, txs, s.accounts, |txs|);
    SeqRunCommits(env, txs, s.accounts, n);
    forall j | i <= j < n
      ensures results[j].1.txHash == txs[j].hash
      ensures results[j].1 == ResultOf(env, txs[j], SeqRun(env, txs, s.accounts, j).cache, s.accounts)
    {
      SeqResultAt(env, txs, s.accounts, n, j);
    }
    StatusFound(s, results, env.slot, i);
  }

  /** Transaction `i` wrote address `a`. */
  ghost predicate Wrote(env: Env, txs: seq<Transaction>, storage: map<Address, Account>, i: nat, a: Address)
    requires WellBehaved(env) && Payable(txs)
  {
    i < |txs| && exists t :: var d := ResultOf(env, txs[i], SeqRun(env, txs, storage, i).cache, storage).deltas;
                             0 <= t < |d| && d[t].0 == a
  }

  /** And under an address, the slot and an index exactly the transaction of that index, if it
      wrote the address; indices are 32 bits wide. */
  lemma {:induction false} SlotSignatureFound(env: Env, txs: seq<Transaction>, s: Store, i: nat, a: Address)
    requires WellBehaved(env) && Payable(txs) && i < |txs| <= U32_LIMIT
    ensures var now := ApplyBatch(s, SeqRun(env, txs, s.accounts, |txs|).batch).signatures;
            && ((a, env.slot, i) in now <==> (a, env.slot, i) in s.signatures || Wrote(env, txs, s.accounts, i, a))
            && (Wrote(env, txs, s.accounts, i, a) ==> now[(a, env.slot, i)] == txs[i].hash)
  {
    hide SeqRun, ResultOf, SeqResults, CommitAll, ApplyBatch;
    var n, results, key := |txs|, SeqResults(env, txs, s.accounts, |txs|), (a, env.slot, i);
    SeqRunCommits(env, txs, s.accounts, n);
    forall j | 0 <= j < n
      ensures results[j].1.txHash == txs[j].hash
      ensures FiledUnder(results[j], env.slot, key) <==> j == i && Wrote(env, txs, s.accounts, i, a)
    {
      SeqResultAt(env, txs, s.accounts, n, j);
    }
    hide FiledUnder, Wrote;
    SignatureFound(s, results, env.slot, key);
  }

  // ---------------------------------------------------------------------------------
  // The executors

  method ExecuteSlot(env: Env, txs: seq<Transaction>, storage: Storage) returns (r: SlotResult)
    requires WellBehaved(env) && Payable(txs)
    modifies storage
    ensures var l := SeqRun(env, txs, old(storage.contents.accounts), |txs|);
            r == Finalize(l, env.slot) && storage.contents == ApplyBatch(old(storage.contents), l.batch)
  {
    hide Commit, ExecuteOn, Finalize, ApplyBatch, Snapshot;
    var committer := new SlotCommitter();
    for i := 0 to |txs|
      invariant fresh(committer) && storage.contents == old(storage.contents)
      invariant committer.State() == SeqRun(env, txs, storage.contents.accounts, i)
    {
      var result := ExecuteTransaction(env, txs[i], committer.cache, storage.contents.accounts, true);
      committer.CommitResult(i, result, env.slot);
    }
    FlushAll(committer, storage);
    r := committer.FinalizeSlot(env.slot);
  }

  method FlushAll(committer: SlotCommitter, storage: Storage)
    modifies storage
    ensures storage.contents == ApplyBatch(old(storage.contents), committer.batch)
  {
    if |committer.batch| > 0 {
      storage.Write(committer.batch);
    }
  }

  /** The results of a batch, each transaction once, in whatever order they came. */
  ghost predicate Collects(env: Env, txs: seq<Transaction>, cache: map<Address, Account>,
      storage: map<Address, Account>,
                           done: set<nat>, results: seq<(nat, TxResult)>)
    requires WellBehaved(env) && Payable(txs)
  {
    && (forall p :: 0 <= p < |results| ==>
          && results[p].0 in done && results[p].0 < |txs|
          && results[p].1 == ResultOf(env, txs[results[p].0], cache, storage))
    && (forall i :: i in done ==> exists p :: 0 <= p < |results| && results[p].0 == i)
    && (forall p, q :: 0 <= p < q < |results| ==> results[p].0 != results[q].0)
  }

  function Members(batch: seq<nat>): set<nat> {
    set i | i in batch
  }

  /** Runs a batch against one cache, taking the transactions in an arbitrary order. */
  method RunBatch(env: Env, txs: seq<Transaction>, batch: seq<nat>, cache: map<Address, Account>,
      storage: map<Address, Account>)
    returns (results: seq<(nat, TxResult)>)
    requires WellBehaved(env) && Payable(txs) && forall s :: 0 <= s < |batch| ==> batch[s] < |txs|
    ensures Collects(env, txs, cache, storage, Members(batch), results)
  {
    hide ExecuteOn, Snapshot, ResultOf, Collects;
    results := [];
    CollectsNone(env, txs, cache, storage);
    ghost var all := Members(batch);
    var todo := Members(batch);
    assert all - todo == {};
    while todo != {}
      invariant todo <= all && Collects(env, txs, cache, storage, all - todo, results)
      decreases |todo|
    {
      var i :| i in todo;
      InRange(txs, batch, i);
      var r := ExecuteTransaction(env, txs[i], cache, storage, true);
      ResultIs(env, txs[i], cache, storage);
      CollectsMore(env, txs, cache, storage, all - todo, results, i);
      assert all - todo + {i} == all - (todo - {i});
      results := results + [(i, r)];
      todo := todo - {i};
    }
    assert all - todo == all;
  }

  lemma {:induction false} InRange(txs: seq<Transaction>, batch: seq<nat>, i: nat)
    requires (forall s :: 0 <= s < |batch| ==> batch[s] < |txs|) && i in Members(batch)
    ensures i < |txs|
  {
  }

  lemma {:induction false} ResultIs(env: Env, tx: Transaction, cache: map<Address, Account>,
      storage: map<Address, Account>)
    requires WellBehaved(env) && Handled(tx.message)
    ensures ResultOf(env, tx, cache, storage) ==
              ExecuteOn(env, tx, Snapshot(cache, storage, tx.message.accountKeys), true)
  {
  }

  lemma {:induction false} CollectsNone(env: Env, txs: seq<Transaction>, cache: map<Address, Account>,
      storage: map<Address, Account>)
    requires WellBehaved(env) && Payable(txs)
    ensures Collects(env, txs, cache, storage, {}, [])
  {
  }

  lemma {:induction false} CollectsMore(env: Env, txs: seq<Transaction>, cache: map<Address, Account>,
      storage: map<Address, Account>,
                     done: set<nat>, results: seq<(nat, TxResult)>, i: nat)
    requires WellBehaved(env) && Payable(txs) && i < |txs| && i !in done
    requires Collects(env, txs, cache, storage, done, results)
    ensures Collects(env, txs, cache, storage, done + {i}, results + [(i, ResultOf(env, txs[i], cache, storage))])
  {
    hide ResultOf;
    var more := results + [(i, ResultOf(env, txs[i], cache, storage))];
    forall j | j in done + {i} ensures exists p :: 0 <= p < |more| && more[p].0 == j {
      if j == i {
        assert more[|results|].0 == j;
      } else {
        var p :| 0 <= p < |results| && results[p].0 == j;
        assert more[p].0 == j;
      }
    }
  }

  function InsertByIndex(sorted: seq<(nat, TxResult)>, x: (nat, TxResult)): (r: seq<(nat, TxResult)>) {
    if |sorted| == 0 || sorted[|sorted| - 1].0 <= x.0 then sorted + [x]
    else InsertByIndex(sorted[..|sorted| - 1], x) + [sorted[|sorted| - 1]]
  }

  /** The stable sort by transaction index. */
  function SortByIndex(results: seq<(nat, TxResult)>): (r: seq<(nat, TxResult)>) {
    if |results| == 0 then [] else
      var n := |results| - 1;
      InsertByIndex(SortByIndex(results[..n]), results[n])
  }

  ghost predicate IndexSorted(s: seq<(nat, TxResult)>) {
    forall p, q :: 0 <= p < q < |s| ==> s[p].0 < s[q].0
  }

  lemma {:induction false} InsertSorts(sorted: seq<(nat, TxResult)>, x: (nat, TxResult))
    requires IndexSorted(sorted) && forall p :: 0 <= p < |sorted| ==> sorted[p].0 != x.0
    ensures IndexSorted(InsertByIndex(sorted, x))
    ensures forall y :: y in InsertByIndex(sorted, x) <==> y in sorted || y == x
  {
    if |sorted| > 0 && sorted[|sorted| - 1].0 > x.0 {
      var n := |sorted| - 1;
      InsertSorts(sorted[..n], x);
      var r := InsertByIndex(sorted[..n], x);
      assert InsertByIndex(sorted, x) == r + [sorted[n]];
      assert sorted == sorted[..n] + [sorted[n]];
      hide InsertByIndex;
      forall p | 0 <= p < |r| ensures r[p].0 < sorted[n].0 {
        assert r[p] in r;
      }
    }
  }

  lemma {:induction false} SortSorts(results: seq<(nat, TxResult)>)
    requires forall p, q :: 0 <= p < q < |results| ==> results[p].0 != results[q].0
    ensures IndexSorted(SortByIndex(results))
    ensures forall y :: y in SortByIndex(results) <==> y in results
  {
    hide InsertByIndex;
    if |results| == 0 {
    } else {
      var n := |results| - 1;
      SortSorts(results[..n]);
      var rest := SortByIndex(results[..n]);
      forall p | 0 <= p < |rest| ensures rest[p].0 != results[n].0 {
        assert rest[p] in results[..n];
        var q :| 0 <= q < n && results[..n][q] == rest[p];
      }
      InsertSorts(rest, results[n]);
      assert results == results[..n] + [results[n]];
    }
  }

  lemma {:induction false} IndexSortedUnique(a: seq<(nat, TxResult)>, b: seq<(nat, TxResult)>)
    requires IndexSorted(a) && IndexSorted(b) && forall y :: y in a <==> y in b
    ensures a == b
  {
    if |a| > 0 { assert a[0] in b; }
    if |b| > 0 { assert b[0] in a; }
    if |a| == 0 {
    } else {
      var p :| 0 <= p < |b| && b[p] == a[0];
      var q :| 0 <= q < |a| && a[q] == b[0];
      assert a[0] == b[0];
      forall y ensures y in a[1..] <==> y in b[1..] {
        assert y in a[1..] <==> y in a && y != a[0];
        assert y in b[1..] <==> y in b && y != b[0];
      }
      IndexSortedUnique(a[1..], b[1..]);
      assert a == [a[0]] + a[1..] && b == [b[0]] + b[1..];
    }
  }

  /** The results of a batch in transaction order. */
  function InOrder(env: Env, txs: seq<Transaction>, cache: map<Address, Account>, storage: map<Address, Account>,
      batch: seq<nat>): (r: seq<(nat, TxResult)>)
    requires WellBehaved(env) && Payable(txs) && forall s :: 0 <= s < |batch| ==> batch[s] < |txs|
    ensures |r| == |batch|
    ensures forall s :: 0 <= s < |batch| ==> r[s] == (batch[s], ResultOf(env, txs[batch[s]], cache, storage))
  {
    seq(|batch|, s requires 0 <= s < |batch| => (batch[s], ResultOf(env, txs[batch[s]], cache, storage)))
  }

  /** Whatever the order of completion, sorting gives the results in transaction order. */
  lemma {:induction false} SortRestoresOrder(env: Env, txs: seq<Transaction>, cache: map<Address, Account>,
      storage: map<Address, Account>,
                          batch: seq<nat>, results: seq<(nat, TxResult)>)
    requires WellBehaved(env) && Payable(txs) && StrictlySorted(batch)
    requires forall s :: 0 <= s < |batch| ==> batch[s] < |txs|
    requires Collects(env, txs, cache, storage, Members(batch), results)
    ensures SortByIndex(results) == InOrder(env, txs, cache, storage, batch)
  {
    hide ResultOf;
    var order := InOrder(env, txs, cache, storage, batch);
    SortSorts(results);
    forall y ensures y in results <==> y in order {
      if y in results {
        var p :| 0 <= p < |results| && results[p] == y;
        var s :| 0 <= s < |batch| && batch[s] == y.0;
        assert order[s] == y;
      }
      if y in order {
        var s :| 0 <= s < |order| && order[s] == y;
        assert batch[s] in Members(batch);
        var p :| 0 <= p < |results| && results[p].0 == batch[s];
        assert results[p] == y;
      }
    }
    IndexSortedUnique(SortByIndex(results), order);
  }

  /** One batch: run it against the cache as it is, then commit in transaction order. */
  method ExecuteBatch(env: Env, txs: seq<Transaction>, batch: seq<nat>, committer: SlotCommitter,
      storage: map<Address, Account>)
    requires WellBehaved(env) && Payable(txs) && StrictlySorted(batch)
    requires forall s :: 0 <= s < |batch| ==> batch[s] < |txs|
    modifies committer
    ensures committer.State() == BatchRun(env, txs, storage, old(committer.State()), batch, |batch|)
  {
    hide Commit, ExecuteOn, Snapshot;
    var cache := committer.cache;
    var results := RunBatch(env, txs, batch, cache, storage);
    SortRestoresOrder(env, txs, cache, storage, batch, results);
    var sorted := SortByIndex(results);
    for t := 0 to |sorted|
      invariant committer.State() == BatchRun(env, txs, storage, old(committer.State()), batch, t)
    {
      committer.CommitResult(sorted[t].0, sorted[t].1, env.slot);
    }
  }

  /** `batches` is the schedule of the slot, and `l` the ledger its batches lead to, which is
      the sequential ledger when no batch names a read-only payer of its own. */
  ghost predicate RunOf(env: Env, txs: seq<Transaction>, storage: map<Address, Account>, batches: seq<seq<nat>>,
      l: Ledger)
    requires WellBehaved(env) && Payable(txs)
  {
    && Schedules(txs, batches, |txs|)
    && (forall c, s :: 0 <= c < |batches| && 0 <= s < |batches[c]| ==> batches[c][s] < |txs|)
    && l == ParRun(env, txs, storage, batches, |batches|)
    && (BatchesApart(txs, batches, |batches|) ==> l == SeqRun(env, txs, storage, |txs|))
  }

  /** There is one such schedule and one such ledger, so the immediate and the deferred
      executor, which both end in one, give the same result and the same writes. */
  lemma {:induction false} RunOfUnique(env: Env, txs: seq<Transaction>, storage: map<Address, Account>,
      a: seq<seq<nat>>, l: Ledger, b: seq<seq<nat>>, m: Ledger)
    requires WellBehaved(env) && Payable(txs) && RunOf(env, txs, storage, a, l) && RunOf(env, txs, storage, b, m)
    ensures a == b && l == m
  {
    hide Schedules, ParRun, SeqRun, BatchApart;
    ScheduleUnique(txs, a, b, |txs|);
  }

  /** Schedules and runs all batches, leaving the writes pending. */
  method ExecuteBatches(env: Env, txs: seq<Transaction>, storage: map<Address, Account>)
    returns (committer: SlotCommitter, ghost schedule: seq<seq<nat>>)
    requires WellBehaved(env) && Payable(txs)
    ensures fresh(committer) && RunOf(env, txs, storage, schedule, committer.State())
  {
    hide BatchRun, SeqRun, Conflict, ConflictFree, BatchApart;
    committer := new SlotCommitter();
    var batches := Schedule(txs);
    schedule := batches;
    ScheduledInRange(txs, batches, |txs|);
    for b := 0 to |batches|
      invariant fresh(committer) && committer.State() == ParRun(env, txs, storage, batches, b)
    {
      BatchOffset(txs, batches, |txs|, b);
      ExecuteBatch(env, txs, batches[b], committer, storage);
    }
    if BatchesApart(txs, batches, |batches|) {
      ParallelEqualsSequential(env, txs, storage, batches);
    }
  }

  /** The parallel executor stores and returns what its batches lead to: exactly what
      `ExecuteSlot` promises, unless a batch names a read-only payer of its own. */
  method ExecuteSlotParallel(env: Env, txs: seq<Transaction>, storage: Storage)
    returns (r: SlotResult, ghost schedule: seq<seq<nat>>, ghost l: Ledger)
    requires WellBehaved(env) && Payable(txs)
    modifies storage
    ensures RunOf(env, txs, old(storage.contents.accounts), schedule, l)
    ensures r == Finalize(l, env.slot) && storage.contents == ApplyBatch(old(storage.contents), l.batch)
  {
    hide Finalize, ApplyBatch, RunOf;
    var committer;
    committer, schedule := ExecuteBatches(env, txs, storage.contents.accounts);
    l := committer.State();
    FlushAll(committer, storage);
    r := committer.FinalizeSlot(env.slot);
  }

  /** The deferred executor returns the same result and the writes, and stores nothing. */
  method ExecuteSlotDeferred(env: Env, txs: seq<Transaction>, storage: Storage)
    returns (r: SlotResult, ops: seq<WriteOp>, ghost schedule: seq<seq<nat>>, ghost l: Ledger)
    requires WellBehaved(env) && Payable(txs)
    ensures unchanged(storage)
    ensures RunOf(env, txs, storage.contents.accounts, schedule, l)
    ensures r == Finalize(l, env.slot) && ops == l.batch
  {
    hide RunOf;
    var committer;
    committer, schedule := ExecuteBatches(env, txs, storage.contents.accounts);
    l := committer.State();
    ops := committer.TakeWriteBatch();
    r := committer.FinalizeSlot(env.slot);
    assert r == Finalize(l, env.slot);
  }

  // ---------------------------------------------------------------------------------
  // Why read-only payers must stay apart

  /** The same programs and the same budget parser. */
  ghost predicate SameCode(env: Env, code: Env) {
    env.parseBudget == code.parseBudget && env.process == code.process && env.reserved == code.reserved
  }

  /** One lamport per signature, and no blockhash is recent. */
  function StaleEnv(code: Env): (env: Env) {
    code.(slot := 1, lamportsPerSignature := 1, recentBlockhashes := {})
  }

  /** In bounds, without repeated keys, signed, and with a budget that parses. */
  ghost predicate Ordinary(code: Env, msg: Message) {
    && code.parseBudget(msg).Ok?
    && |msg.accountKeys| > 0 && msg.numRequiredSignatures > 0 && Distinct(msg.accountKeys)
    && forall t :: 0 <= t < |msg.instructions| ==> InBounds(msg, t)
  }

  /** Ordinary transactions whose fees, at a lamport per signature, one account could pay. */
  ghost predicate OrdinarySlot(code: Env, txs: seq<Transaction>) {
    255 * |txs| <= U64_MAX && forall i :: 0 <= i < |txs| ==> Ordinary(code, txs[i].message)
  }

  lemma {:induction false} NoData(accounts: seq<Account>, n: nat)
    requires n <= |accounts| && forall i :: 0 <= i < |accounts| ==> accounts[i].data == []
    ensures DataSize(accounts, n) == 0
  {
    if n == 0 {
    } else {
      NoData(accounts, n - 1);
    }
  }

  lemma {:induction false} StaleLoaded(code: Env, tx: Transaction, accounts: seq<Account>, limit: nat)
    requires WellBehaved(code) && |accounts| == |tx.message.accountKeys| > 0
    ensures WellBehaved(StaleEnv(code))
    ensures var r, fee := ExecuteLoaded(StaleEnv(code), tx, accounts, limit), tx.message.numRequiredSignatures;
            var payer := accounts[0];
            && r.preBalances == Balances(accounts)
            && r.deltas == if payer.lamports < fee then []
                           else [(tx.message.accountKeys[0], payer.(lamports := payer.lamports - fee))]
  {
    hide Ending, ByKey, Balances;
    assert Fee(StaleEnv(code), tx.message) == tx.message.numRequiredSignatures;
    assert !Recent(StaleEnv(code), tx.message);
  }

  /** Without a recent blockhash an ordinary transaction reports the balances it found, and
      writes the charged payer if it can pay. */
  lemma {:induction false} StaleResult(code: Env, tx: Transaction, accounts: seq<Account>)
    requires WellBehaved(code) && Ordinary(code, tx.message) && |accounts| == |tx.message.accountKeys|
    requires forall i :: 0 <= i < |accounts| ==> accounts[i].data == []
    ensures WellBehaved(StaleEnv(code))
    ensures var r, fee, payer := ExecuteOn(StaleEnv(code), tx, accounts, true), tx.message.numRequiredSignatures,
              accounts[0];
            && r.preBalances == Balances(accounts)
            && r.deltas == if payer.lamports < fee then []
                           else [(tx.message.accountKeys[0], payer.(lamports := payer.lamports - fee))]
  {
    hide ExecuteLoaded, Balances, LoadOutcome;
    var msg, budget := tx.message, code.parseBudget(tx.message).value;
    assert Sanitize(msg, 0).None?;
    NoData(accounts, |accounts|);
    LoadOutcomeMeaning(msg.accountKeys, accounts, budget.dataSizeLimit);
    StaleLoaded(code, tx, accounts, budget.computeUnitLimit);
  }

  /** What is left on `a` after the fees of the first `n` transactions it pays for. */
  function Left(txs: seq<Transaction>, a: Address, n: nat): (r: int)
    requires n <= |txs|
    ensures U64_MAX - 255 * n <= r <= U64_MAX
  {
    if n == 0 then U64_MAX else Left(txs, a, n - 1) - FeeFrom(txs[n - 1].message, a)
  }

  function FeeFrom(msg: Message, a: Address): (r: nat)
    ensures r <= 255
  {
    if |msg.accountKeys| > 0 && msg.accountKeys[0] == a then msg.numRequiredSignatures else 0
  }

  lemma {:induction false} LeftFalls(txs: seq<Transaction>, a: Address, m: nat, n: nat, s: nat)
    requires m <= s < n <= |txs| && FeeFrom(txs[s].message, a) > 0
    ensures Left(txs, a, n) < Left(txs, a, m)
    decreases n
  {
    LeftSinks(txs, a, m, n - 1);
    if s == n - 1 {
    } else {
      LeftFalls(txs, a, m, n - 1, s);
    }
  }

  lemma {:induction false} LeftSinks(txs: seq<Transaction>, a: Address, m: nat, n: nat)
    requires m <= n <= |txs|
    ensures Left(txs, a, n) <= Left(txs, a, m)
    decreases n
  {
    if m == n {
    } else {
      LeftSinks(txs, a, m, n - 1);
    }
  }

  /** Storage in which one address holds all it can, and no other anything. */
  function Purse(a: Address): (r: map<Address, Account>) {
    map[a := Holding(U64_MAX)]
  }

  /** Readers find `x` lamports on `a` and nothing elsewhere. */
  ghost predicate OnlyHolds(cache: map<Address, Account>, storage: map<Address, Account>, a: Address, x: U64) {
    forall k: Address :: View(cache, storage, k) == Holding(if k == a then x else 0)
  }

  lemma {:induction false} CommitPayer(l: Ledger, i: nat, r: TxResult, slot: nat, storage: map<Address, Account>,
      a: Address, x: U64, y: U64)
    requires OnlyHolds(l.cache, storage, a, x)
    requires r.deltas == [(a, Holding(y))] || (r.deltas == [] && y == x)
    ensures OnlyHolds(Commit(l, i, r, slot).cache, storage, a, y)
  {
    var after := Commit(l, i, r, slot).cache;
    if r.deltas != [] {
      assert r.deltas[..0] == [];
      assert ApplyDeltas(l.cache, []) == l.cache;
      assert after == l.cache[a := Holding(y)];
    }
    forall k: Address ensures View(after, storage, k) == Holding(if k == a then y else 0) {
      assert View(l.cache, storage, k) == Holding(if k == a then x else 0);
    }
  }

  /** What an ordinary transaction does when only `a` holds anything. */
  lemma {:induction false} PurseResult(code: Env, tx: Transaction, cache: map<Address, Account>,
      storage: map<Address, Account>, a: Address, x: U64)
    requires WellBehaved(code) && Ordinary(code, tx.message) && OnlyHolds(cache, storage, a, x) && x >= 255
    ensures WellBehaved(StaleEnv(code))
    ensures var r, accounts := ResultOf(StaleEnv(code), tx, cache, storage),
              Snapshot(cache, storage, tx.message.accountKeys);
            && r.preBalances == Balances(accounts)
            && r.deltas == if FeeFrom(tx.message, a) == 0 then [] else [(a, Holding(x - FeeFrom(tx.message, a)))]
  {
    hide ExecuteOn;
    var keys, accounts := tx.message.accountKeys, Snapshot(cache, storage, tx.message.accountKeys);
    forall i | 0 <= i < |accounts| ensures accounts[i] == Holding(if keys[i] == a then x else 0) { }
    StaleResult(code, tx, accounts);
  }

  /** The sequential run only ever moves the purse. */
  lemma {:induction false} PurseRun(code: Env, txs: seq<Transaction>, a: Address, n: nat)
    requires WellBehaved(code) && OrdinarySlot(code, txs) && n <= |txs|
    ensures WellBehaved(StaleEnv(code)) && Payable(txs) && 0 <= Left(txs, a, n) <= U64_MAX
    ensures OnlyHolds(SeqRun(StaleEnv(code), txs, Purse(a), n).cache, Purse(a), a, Left(txs, a, n))
  {
    hide Commit, ResultOf;
    var env := StaleEnv(code);
    if n == 0 {
      assert SeqRun(env, txs, Purse(a), 0) == EMPTY_LEDGER;
    } else {
      PurseRun(code, txs, a, n - 1);
      var l, tx, x := SeqRun(env, txs, Purse(a), n - 1), txs[n - 1], Left(txs, a, n - 1);
      PurseResult(code, tx, l.cache, Purse(a), a, x);
      CommitPayer(l, n - 1, ResultOf(env, tx, l.cache, Purse(a)), env.slot, Purse(a), a, x, Left(txs, a, n));
    }
  }

  /** Results with as many deltas but other balances leave other writes, and as many. */
  lemma {:induction false} BalancesShow(l: Ledger, i: nat, a: TxResult, b: TxResult, slot: nat)
    requires |a.deltas| == |b.deltas| && a.preBalances != b.preBalances
    ensures |Commit(l, i, a, slot).batch| == |Commit(l, i, b, slot).batch|
    ensures Commit(l, i, a, slot).batch != Commit(l, i, b, slot).batch
  {
    var n := |a.deltas|;
    SignatureCount(a, slot, i, n);
    SignatureCount(b, slot, i, n);
    hide SignatureWrites;
    var at := |l.batch| + n;
    assert Commit(l, i, a, slot).batch[at] == StatusWrite(a, slot);
    assert Commit(l, i, b, slot).batch[at] == StatusWrite(b, slot);
  }

  lemma {:induction false} SignatureCount(r: TxResult, slot: nat, index: nat, n: nat)
    requires n <= |r.deltas|
    ensures |SignatureWrites(r, slot, index, n)| == n
  {
    if n == 0 {
    } else {
      SignatureCount(r, slot, index, n - 1);
    }
  }

  // Pending writes are only ever added to.

  lemma {:induction false} CommitAppends(l: Ledger, i: nat, r: TxResult, slot: nat)
    ensures l.batch <= Commit(l, i, r, slot).batch
  {
  }

  lemma {:induction false} SeqAppends(env: Env, txs: seq<Transaction>, storage: map<Address, Account>, m: nat, n: nat)
    requires WellBehaved(env) && Payable(txs) && m <= n <= |txs|
    ensures SeqRun(env, txs, storage, m).batch <= SeqRun(env, txs, storage, n).batch
    decreases n
  {
    hide Commit, ResultOf;
    if m == n {
    } else {
      SeqAppends(env, txs, storage, m, n - 1);
      var l := SeqRun(env, txs, storage, n - 1);
      CommitAppends(l, n - 1, ResultOf(env, txs[n - 1], l.cache, storage), env.slot);
    }
  }

  lemma {:induction false} BatchAppends(env: Env, txs: seq<Transaction>, storage: map<Address, Account>, start: Ledger,
      batch: seq<nat>, m: nat, n: nat)
    requires WellBehaved(env) && Payable(txs) && m <= n <= |batch|
    requires forall s :: 0 <= s < |batch| ==> batch[s] < |txs|
    ensures BatchRun(env, txs, storage, start, batch, m).batch <= BatchRun(env, txs, storage, start, batch, n).batch
    decreases n
  {
    hide Commit, ResultOf;
    if m == n {
    } else {
      BatchAppends(env, txs, storage, start, batch, m, n - 1);
      var l := BatchRun(env, txs, storage, start, batch, n - 1);
      CommitAppends(l, batch[n - 1], ResultOf(env, txs[batch[n - 1]], start.cache, storage), env.slot);
    }
  }

  lemma {:induction false} ParAppends(env: Env, txs: seq<Transaction>, storage: map<Address, Account>,
      batches: seq<seq<nat>>, m: nat, n: nat)
    requires WellBehaved(env) && Payable(txs) && m <= n <= |batches|
    requires forall c, s :: 0 <= c < |batches| && 0 <= s < |batches[c]| ==> batches[c][s] < |txs|
    ensures ParRun(env, txs, storage, batches, m).batch <= ParRun(env, txs, storage, batches, n).batch
    decreases n
  {
    hide BatchRun;
    if m == n {
    } else {
      ParAppends(env, txs, storage, batches, m, n - 1);
      var l, batch := ParRun(env, txs, storage, batches, n - 1), batches[n - 1];
      assert BatchRun(env, txs, storage, l, batch, 0) == l by { BatchStart(env, txs, storage, l, batch); }
      BatchAppends(env, txs, storage, l, batch, 0, |batch|);
    }
  }

  lemma {:induction false} BatchStart(env: Env, txs: seq<Transaction>, storage: map<Address, Account>, start: Ledger,
      batch: seq<nat>)
    requires WellBehaved(env) && Payable(txs) && forall s :: 0 <= s < |batch| ==> batch[s] < |txs|
    ensures BatchRun(env, txs, storage, start, batch, 0) == start
  {
  }

  /** Sequences of equal length that differ are not prefixes of one sequence. */
  lemma {:induction false} PrefixesDiffer<T>(a: seq<T>, b: seq<T>, x: seq<T>, y: seq<T>)
    requires |a| == |b| && a != b && a <= x && b <= y
    ensures x != y
  {
  }

  /** The transaction at place `t` of batch `c` is the first to name a read-only payer of an
      earlier one of its batch, the one at place `s`. */
  ghost predicate FirstShared(txs: seq<Transaction>, batches: seq<seq<nat>>, c: nat, s: nat, t: nat) {
    && c < |batches| && s < t < |batches[c]|
    && BatchesApart(txs, batches, c) && BatchApart(txs, batches[c], t)
    && batches[c][s] < |txs| && batches[c][t] < |txs|
    && !PayerApart(txs[batches[c][s]].message, txs[batches[c][t]].message)
  }

  lemma {:induction false} SharedInBatch(txs: seq<Transaction>, batch: seq<nat>, n: nat) returns (s: nat, t: nat)
    requires n <= |batch| && (forall i :: 0 <= i < |batch| ==> batch[i] < |txs|) && !BatchApart(txs, batch, n)
    ensures s < t < n && BatchApart(txs, batch, t) && !PayerApart(txs[batch[s]].message, txs[batch[t]].message)
    decreases n
  {
    if n > 0 && !BatchApart(txs, batch, n - 1) {
      s, t := SharedInBatch(txs, batch, n - 1);
    } else {
      var i, j :| 0 <= i < j < n && !PayerApart(txs[batch[i]].message, txs[batch[j]].message);
      s, t := i, j;
      assert t == n - 1;
    }
  }

  lemma {:induction false} SharedInSlot(txs: seq<Transaction>, batches: seq<seq<nat>>, b: nat)
    returns (c: nat, s: nat, t: nat)
    requires forall c, s :: 0 <= c < |batches| && 0 <= s < |batches[c]| ==> batches[c][s] < |txs|
    requires b <= |batches| && !BatchesApart(txs, batches, b)
    ensures FirstShared(txs, batches, c, s, t)
    decreases b
  {
    hide BatchApart;
    if b > 0 && !BatchesApart(txs, batches, b - 1) {
      c, s, t := SharedInSlot(txs, batches, b - 1);
    } else {
      assert b > 0;
      c := b - 1;
      s, t := SharedInBatch(txs, batches[c], |batches[c]|);
    }
  }

  /** Up to the shared payer the runs agree; there the batch shows the payer before the fee of
      the earlier transaction, and the sequential run after it. */
  lemma {:induction false} SharedPayerDiverges(code: Env, txs: seq<Transaction>, batches: seq<seq<nat>>, c: nat,
      s: nat, t: nat)
    requires WellBehaved(code) && OrdinarySlot(code, txs)
    requires Schedules(txs, batches, |txs|) && FirstShared(txs, batches, c, s, t)
    requires forall c, s :: 0 <= c < |batches| && 0 <= s < |batches[c]| ==> batches[c][s] < |txs|
    ensures WellBehaved(StaleEnv(code)) && Payable(txs)
    ensures var env, storage := StaleEnv(code), Purse(txs[batches[c][s]].message.accountKeys[0]);
            ParRun(env, txs, storage, batches, |batches|).batch != SeqRun(env, txs, storage, |txs|).batch
  {
    hide Commit, ResultOf, Conflict, ConflictFree, BatchApart, Schedules, Purse, InBounds, WellBehaved;
    var env, a, batch := StaleEnv(code), txs[batches[c][s]].message.accountKeys[0], batches[c];
    var storage, lo := Purse(a), |Concat(batches[..c])|;
    PurseRun(code, txs, a, 0);
    BatchOffset(txs, batches, |txs|, c);
    BatchesAreSequential(env, txs, storage, batches, c);
    var start := SeqRun(env, txs, storage, lo);
    ScheduledFree(txs, batches, c);
    BatchIsSequential(env, txs, storage, batch, lo, t);
    var now := SeqRun(env, txs, storage, lo + t);
    SharedReads(code, txs, a, lo, t, s, start, now);
    DifferenceStays(env, txs, storage, batches, c, t, lo + t + 1);
  }

  /** Once the writes differ they go on to differ. */
  lemma {:induction false} DifferenceStays(env: Env, txs: seq<Transaction>, storage: map<Address, Account>,
      batches: seq<seq<nat>>, c: nat, t: nat, n: nat)
    requires WellBehaved(env) && Payable(txs) && c < |batches| && t < |batches[c]| && n <= |txs|
    requires forall c, s :: 0 <= c < |batches| && 0 <= s < |batches[c]| ==> batches[c][s] < |txs|
    requires var x := BatchRun(env, txs, storage, ParRun(env, txs, storage, batches, c), batches[c], t + 1).batch;
             var y := SeqRun(env, txs, storage, n).batch;
             |x| == |y| && x != y
    ensures ParRun(env, txs, storage, batches, |batches|).batch != SeqRun(env, txs, storage, |txs|).batch
  {
    hide BatchRun, SeqRun;
    var start := ParRun(env, txs, storage, batches, c);
    BatchAppends(env, txs, storage, start, batches[c], t + 1, |batches[c]|);
    ParAppends(env, txs, storage, batches, c + 1, |batches|);
    SeqAppends(env, txs, storage, n, |txs|);
    PrefixesDiffer(BatchRun(env, txs, storage, start, batches[c], t + 1).batch, SeqRun(env, txs, storage, n).batch,
        ParRun(env, txs, storage, batches, |batches|).batch, SeqRun(env, txs, storage, |txs|).batch);
  }

  lemma {:induction false} ScheduledFree(txs: seq<Transaction>, batches: seq<seq<nat>>, c: nat)
    requires Schedules(txs, batches, |txs|) && c < |batches|
    ensures ConflictFree(txs, batches[c])
  {
  }

  /** The transaction at `lo + t` reads the payer of the one at `lo + s` with the fee already
      taken in turn, and before it in the batch. */
  lemma {:induction false} SharedReads(code: Env, txs: seq<Transaction>, a: Address, lo: nat, t: nat, s: nat,
      start: Ledger, now: Ledger)
    requires WellBehaved(code) && OrdinarySlot(code, txs) && s < t && lo + t < |txs|
    requires a == txs[lo + s].message.accountKeys[0] && a in txs[lo + t].message.accountKeys
    requires WellBehaved(StaleEnv(code)) && Payable(txs)
    requires start == SeqRun(StaleEnv(code), txs, Purse(a), lo) && now == SeqRun(StaleEnv(code), txs, Purse(a), lo + t)
    ensures var env, tx := StaleEnv(code), txs[lo + t];
            var x := Commit(now, lo + t, ResultOf(env, tx, start.cache, Purse(a)), env.slot).batch;
            var y := Commit(now, lo + t, ResultOf(env, tx, now.cache, Purse(a)), env.slot).batch;
            |x| == |y| && x != y
  {
    hide Commit, ResultOf, SeqRun;
    var env, tx, storage := StaleEnv(code), txs[lo + t], Purse(a);
    var keys := tx.message.accountKeys;
    PurseRun(code, txs, a, lo);
    PurseRun(code, txs, a, lo + t);
    var before, after := Left(txs, a, lo), Left(txs, a, lo + t);
    LeftFalls(txs, a, lo, lo + t, lo + s);
    hide Left;
    PurseResult(code, tx, start.cache, storage, a, before);
    PurseResult(code, tx, now.cache, storage, a, after);
    var i :| 0 <= i < |keys| && keys[i] == a;
    assert Balances(Snapshot(start.cache, storage, keys))[i] == before;
    assert Balances(Snapshot(now.cache, storage, keys))[i] == after;
    BalancesShow(now, lo + t, ResultOf(env, tx, start.cache, storage), ResultOf(env, tx, now.cache, storage), env.slot);
  }

  /** With these programs and this budget parser, whatever the accounts, the slot, the fee
      rate and the recent blockhashes are, the batches lead to the ledger of sequential
      execution. */
  ghost predicate AlwaysAgree(code: Env, txs: seq<Transaction>, batches: seq<seq<nat>>)
    requires Payable(txs)
    requires forall c, s :: 0 <= c < |batches| && 0 <= s < |batches[c]| ==> batches[c][s] < |txs|
  {
    forall env: Env, storage ::
      WellBehaved(env) && SameCode(env, code) ==>
        ParRun(env, txs, storage, batches, |batches|) == SeqRun(env, txs, storage, |txs|)
  }

  /** A slot of ordinary transactions runs in parallel as in turn, whatever happens, exactly
      if no transaction names a read-only payer of an earlier one of its batch. */
  lemma {:induction false} AgreesIffApart(code: Env, txs: seq<Transaction>, batches: seq<seq<nat>>)
    requires WellBehaved(code) && OrdinarySlot(code, txs) && Schedules(txs, batches, |txs|)
    requires forall c, s :: 0 <= c < |batches| && 0 <= s < |batches[c]| ==> batches[c][s] < |txs|
    ensures Payable(txs) && (AlwaysAgree(code, txs, batches) <==> BatchesApart(txs, batches, |batches|))
  {
    hide ParRun, SeqRun, Schedules, BatchApart;
    if BatchesApart(txs, batches, |batches|) {
      forall env: Env, storage | WellBehaved(env) && SameCode(env, code)
        ensures ParRun(env, txs, storage, batches, |batches|) == SeqRun(env, txs, storage, |txs|)
      {
        ParallelEqualsSequential(env, txs, storage, batches);
      }
    } else {
      var c, s, t := SharedInSlot(txs, batches, |batches|);
      SharedPayerDiverges(code, txs, batches, c, s, t);
      assert SameCode(StaleEnv(code), code);
    }
  }

  /** Two ordinary transactions that do not conflict are scheduled together; if the second
      names a read-only payer of the first, they do not run as they would in turn. */
  lemma {:induction false} PairDiverges(code: Env, txs: seq<Transaction>)
    requires WellBehaved(code) && |txs| == 2 && OrdinarySlot(code, txs)
    requires !Conflict(txs[1].message, txs[0].message) && !PayerApart(txs[0].message, txs[1].message)
    ensures Payable(txs) && !AlwaysAgree(code, txs, [[0, 1]])
  {
    var batches: seq<seq<nat>> := [[0, 1]];
    PairScheduled(txs);
    assert !BatchApart(txs, batches[0], 2) by {
      assert !PayerApart(txs[batches[0][0]].message, txs[batches[0][1]].message);
    }
    hide AlwaysAgree, Schedules, BatchApart;
    AgreesIffApart(code, txs, batches);
  }

  lemma {:induction false} PairScheduled(txs: seq<Transaction>)
    requires |txs| == 2 && !Conflict(txs[1].message, txs[0].message)
    ensures Schedules(txs, [[0, 1]], 2)
  {
    hide Conflict;
    var batches: seq<seq<nat>> := [[0, 1]];
    assert Concat(batches) == [0, 1] == Range(0, 2) by { assert batches[..0] == []; }
    assert ConflictFree(txs, batches[0]);
  }

  /** A message whose only key pays, signs and is read-only. */
  const READONLY_PAYER := Message(1, 1, 0, [7], 0, [])

  /** Two transactions paid by the same read-only key are scheduled together, and do not run
      as they would in turn. */
  lemma {:induction false} ReadonlyPayerDiverges(code: Env, txs: seq<Transaction>)
    requires WellBehaved(code) && code.parseBudget(READONLY_PAYER).Ok?
    requires |txs| == 2 && txs[0].message == txs[1].message == READONLY_PAYER
    ensures Payable(txs) && Schedules(txs, [[0, 1]], 2) && !AlwaysAgree(code, txs, [[0, 1]])
  {
    assert !Conflict(READONLY_PAYER, READONLY_PAYER) by {
      assert WriteSet(READONLY_PAYER) == {} by { assert forall i :: 0 <= i < 1 ==> !READONLY_PAYER.IsWritable(i); }
    }
    hide Conflict, AlwaysAgree;
    PairScheduled(txs);
    PairDiverges(code, txs);
  }

  /** A compiled message is ordinary if its budget parses and its signature count is not cut
      to zero. */
  lemma {:induction false} CompiledOrdinary(code: Env, ixs: seq<Instruction>, payer: Address, msg: Message)
    requires CompiledFrom(ixs, payer, msg) && msg.numRequiredSignatures > 0 && code.parseBudget(msg).Ok?
    ensures Ordinary(code, msg)
  {
    hide Faithful, Fits, PayerCut;
  }

  /** Messages that share one key, which neither may write, do not conflict. */
  lemma {:induction false} SharedReadOnly(a: Message, b: Message, k: Address)
    requires forall x :: x in a.accountKeys && x in b.accountKeys ==> x == k
    requires forall i :: 0 <= i < |a.accountKeys| && a.accountKeys[i] == k ==> !a.IsWritable(i)
    requires forall i :: 0 <= i < |b.accountKeys| && b.accountKeys[i] == k ==> !b.IsWritable(i)
    ensures !Conflict(a, b)
  {
    assert WriteSet(a) * (WriteSet(b) + ReadSet(b)) == {} by {
      forall x | x in WriteSet(a) ensures x !in WriteSet(b) + ReadSet(b) {
        assert x in a.accountKeys && x != k;
      }
    }
    assert ReadSet(a) * WriteSet(b) == {} by {
      forall x | x in WriteSet(b) ensures x !in ReadSet(a) {
        assert x in b.accountKeys && x != k;
      }
    }
  }

  /** The compiler itself makes such a pair: 257 signers leave a message with a read-only
      payer, and a message that reads that payer runs beside it. */
  method CompiledPayerDiverges(code: Env) returns (txs: seq<Transaction>)
    requires WellBehaved(code)
    ensures |txs| == 2 && CompiledFrom(Crowd(), 0, txs[0].message) && CompiledFrom(ReadsPayer(), 2000, txs[1].message)
    ensures Payable(txs) && Schedules(txs, [[0, 1]], 2)
    ensures code.parseBudget(txs[0].message).Ok? && code.parseBudget(txs[1].message).Ok? ==>
              !AlwaysAgree(code, txs, [[0, 1]])
  {
    hide Conflict, AlwaysAgree, Crowd, Mentions, Mentioned, Signers, PayerCut;
    var earlier := CompileCrowd();
    var later := Compile(ReadsPayer(), 2000);
    ReadsPayerFits();
    ReaderApart(earlier.value, later.value);
    txs := [Transaction(0, earlier.value, true), Transaction(1, later.value, true)];
    PairScheduled(txs);
    if code.parseBudget(txs[0].message).Ok? && code.parseBudget(txs[1].message).Ok? {
      CompiledOrdinary(code, Crowd(), 0, earlier.value);
      CompiledOrdinary(code, ReadsPayer(), 2000, later.value);
      PairDiverges(code, txs);
    }
  }

  lemma {:induction false} ReaderApart(earlier: Message, later: Message)
    requires CompiledFrom(Crowd(), 0, earlier) && !earlier.IsWritable(0)
    requires CompiledFrom(ReadsPayer(), 2000, later) && Fits(ReadsPayer(), 2000)
    ensures !Conflict(later, earlier) && !PayerApart(earlier, later)
  {
    hide Conflict, Crowd, ReadsPayer, Mentions, Mentioned, Signers, PayerCut, Fits, MustSign, MayWrite;
    forall x | x in later.accountKeys && x in earlier.accountKeys ensures x == 0 {
      CrowdRoles(x);
      ReadsPayerRoles(x);
    }
    ReadsPayerRoles(0);
    assert Faithful(ReadsPayer(), 2000, later);
    SharedReadOnly(later, earlier, 0);
  }
}
