/** Committing results within a slot (runtime/src/slot_commit.rs) and the storage a slot is
    finally written to (storage/src/account_index.rs, owner_index.rs, transaction.rs). */
module SlotCommit {
  import opened Crypto
  import opened Ordered
  import opened Transactions

  datatype StatusMeta = StatusMeta(
    slot: nat, status: Option<RuntimeError>, fee: nat,
    preBalances: seq<nat>, postBalances: seq<nat>, computeUnits: nat)

  /** `PutAccount` stands for the account record, the latest-slot pointer and the owner
      index update that one account write appends. */
  datatype WriteOp =
    | PutAccount(address: Address, slot: nat, account: Account, prior: Option<Account>)
    | PutStatus(txHash: Address, meta: StatusMeta)
    | PutSignature(address: Address, slot: nat, index: nat, txHash: Address)

  /** Latest accounts, the owner index as (owner, address) pairs, and transaction records. */
  datatype Store = Store(
    accounts: map<Address, Account>,
    owners: set<(Address, Address)>,
    statuses: map<Address, StatusMeta>,
    signatures: map<(Address, nat, nat), Address>)

  function Reindex(owners: set<(Address, Address)>, address: Address, prior: Option<Account>,
      account: Account): (r: set<(Address, Address)>)
  {
    if prior.Some? && prior.value.owner == account.owner then owners
    else (if prior.Some? then owners - {(prior.value.owner, address)} else owners) + {(account.owner, address)}
  }

  function ApplyOp(s: Store, op: WriteOp): (r: Store) {
    match op
    case PutAccount(a, _, account, prior) =>
      s.(accounts := s.accounts[a := account], owners := Reindex(s.owners, a, prior, account))
    case PutStatus(h, meta) => s.(statuses := s.statuses[h := meta])
    case PutSignature(a, slot, i, h) => s.(signatures := s.signatures[(a, slot, i) := h])
  }

  function ApplyBatch(s: Store, ops: seq<WriteOp>): (r: Store) {
    if |ops| == 0 then s else ApplyOp(ApplyBatch(s, ops[..|ops| - 1]), ops[|ops| - 1])
  }

  lemma {:induction false} ApplyBatchConcat(s: Store, a: seq<WriteOp>, b: seq<WriteOp>)
    ensures ApplyBatch(s, a + b) == ApplyBatch(ApplyBatch(s, a), b)
  {
    if |b| == 0 {
      assert a + b == a;
    } else {
      var n := |b| - 1;
      ApplyBatchConcat(s, a, b[..n]);
      assert (a + b)[..|a| + n] == a + b[..n];
    }
  }

  // ---------------------------------------------------------------------------------
  // The committer's state

  datatype Ledger = Ledger(
    executed: nat, succeeded: nat, failed: nat, fees: nat, compute: nat,
    hashed: seq<Token>,
    batch: seq<WriteOp>,
    statuses: seq<(Address, Option<RuntimeError>)>,
    cache: map<Address, Account>)

  const EMPTY_LEDGER := Ledger(0, 0, 0, 0, 0, [], [], [], map[])

  function DeltaTokens(deltas: seq<(Address, Account)>): (r: seq<Token>) {
    if |deltas| == 0 then [] else
      var n := |deltas| - 1;
      DeltaTokens(deltas[..n]) + AccountTokens(deltas[n].0, deltas[n].1)
  }

  lemma {:induction false} DeltaTokensConcat(a: seq<(Address, Account)>, b: seq<(Address, Account)>)
    ensures DeltaTokens(a + b) == DeltaTokens(a) + DeltaTokens(b)
  {
    hide AccountTokens;
    if |b| == 0 {
      assert a + b == a;
    } else {
      var n := |b| - 1;
      DeltaTokensConcat(a, b[..n]);
      assert (a + b)[..|a| + n] == a + b[..n];
    }
  }

  /** What is fed to the hasher determines the accounts written and their order. */
  lemma {:induction false} DeltaTokensInjective(a: seq<(Address, Account)>, b: seq<(Address, Account)>)
    ensures DeltaTokens(a) == DeltaTokens(b) <==> a == b
    decreases |a|
  {
    hide AccountTokens;
    if DeltaTokens(a) == DeltaTokens(b) {
      assert |a| == 0 <==> |b| == 0;
      if |a| == 0 {
      } else {
        var m, n := |a| - 1, |b| - 1;
        LastAccount(DeltaTokens(a[..m]), a[m].0, a[m].1, DeltaTokens(b[..n]), b[n].0, b[n].1);
        DeltaTokensInjective(a[..m], b[..n]);
        assert a == a[..m] + [a[m]] && b == b[..n] + [b[n]];
      }
    }
  }

  function OldAccount(r: TxResult, a: Address): (prior: Option<Account>) {
    if a in r.loaded then Some(r.loaded[a]) else None
  }

  function AccountWrites(r: TxResult, slot: nat, n: nat): (ops: seq<WriteOp>)
    requires n <= |r.deltas|
    ensures |ops| == n
  {
    if n == 0 then [] else
      var (a, account) := r.deltas[n - 1];
      AccountWrites(r, slot, n - 1) + [PutAccount(a, slot, account, OldAccount(r, a))]
  }

  function SignatureWrites(r: TxResult, slot: nat, index: nat, n: nat): (ops: seq<WriteOp>)
    requires n <= |r.deltas|
  {
    if n == 0 then [] else
      SignatureWrites(r, slot, index, n - 1) + [PutSignature(r.deltas[n - 1].0, slot, index % U32_LIMIT, r.txHash)]
  }

  function StatusWrite(r: TxResult, slot: nat): (op: WriteOp) {
    PutStatus(r.txHash, StatusMeta(slot, r.status, r.fee, r.preBalances, r.postBalances, r.computeUnits))
  }

  /** The ledger after one more result: counters, the bytes fed to the delta hasher, the
      pending writes and the account cache all advance together. */
  function Commit(l: Ledger, index: nat, r: TxResult, slot: nat): (l': Ledger) {
    var n := |r.deltas|;
    Ledger(
      l.executed + 1,
      l.succeeded + (if r.status.None? then 1 else 0),
      l.failed + (if r.status.None? then 0 else 1),
      l.fees + r.fee,
      l.compute + r.computeUnits,
      l.hashed + DeltaTokens(r.deltas),
      l.batch + AccountWrites(r, slot, n) + [StatusWrite(r, slot)] + SignatureWrites(r, slot, index, n),
      l.statuses + [(r.txHash, r.status)],
      ApplyDeltas(l.cache, r.deltas))
  }

  // ---------------------------------------------------------------------------------
  // The cache shows what the pending writes will store

  /** Writing the pending batch to storage would give exactly what the cache shows. */
  ghost predicate CacheAgrees(l: Ledger, s: Store) {
    ApplyBatch(s, l.batch).accounts == s.accounts + l.cache
  }

  lemma {:induction false} AccountWritesStore(s: Store, r: TxResult, slot: nat, n: nat)
    requires n <= |r.deltas|
    ensures ApplyBatch(s, AccountWrites(r, slot, n)).accounts == ApplyDeltas(s.accounts, r.deltas[..n])
  {
    if n == 0 {
    } else {
      AccountWritesStore(s, r, slot, n - 1);
      var ops := AccountWrites(r, slot, n);
      assert ops[..n - 1] == AccountWrites(r, slot, n - 1);
      assert r.deltas[..n][..n - 1] == r.deltas[..n - 1];
    }
  }

  lemma {:induction false} SignatureWritesKeep(s: Store, r: TxResult, slot: nat, index: nat, n: nat)
    requires n <= |r.deltas|
    ensures ApplyBatch(s, SignatureWrites(r, slot, index, n)).accounts == s.accounts
    ensures ApplyBatch(s, SignatureWrites(r, slot, index, n)).owners == s.owners
  {
    if n == 0 {
    } else {
      SignatureWritesKeep(s, r, slot, index, n - 1);
      var ops := SignatureWrites(r, slot, index, n);
      assert ops[..|ops| - 1] == SignatureWrites(r, slot, index, n - 1);
    }
  }

  /** Of the writes of one result, only the account writes touch accounts and owners. */
  lemma {:induction false} ResultWrites(s: Store, l: Ledger, index: nat, r: TxResult, slot: nat)
    ensures var mid := ApplyBatch(ApplyBatch(s, l.batch), AccountWrites(r, slot, |r.deltas|));
            var end := ApplyBatch(s, Commit(l, index, r, slot).batch);
            end.accounts == mid.accounts && end.owners == mid.owners
  {
    var n := |r.deltas|;
    var puts, status, sigs := AccountWrites(r, slot, n), [StatusWrite(r, slot)], SignatureWrites(r, slot, index, n);
    ApplyBatchConcat(s, l.batch + puts + status, sigs);
    ApplyBatchConcat(s, l.batch + puts, status);
    ApplyBatchConcat(s, l.batch, puts);
    var mid := ApplyBatch(s, l.batch + puts);
    assert ApplyBatch(mid, status) == ApplyOp(mid, status[0]) by { assert status[..0] == []; }
    SignatureWritesKeep(ApplyBatch(mid, status), r, slot, index, n);
  }

  lemma {:induction false} DeltasOverMerge(base: map<Address, Account>, cache: map<Address, Account>,
      deltas: seq<(Address, Account)>)
    ensures ApplyDeltas(base + cache, deltas) == base + ApplyDeltas(cache, deltas)
  {
    if |deltas| == 0 {
    } else {
      DeltasOverMerge(base, cache, deltas[..|deltas| - 1]);
    }
  }

  /** Every commit, of any result, keeps the cache and the pending writes in agreement. */
  lemma {:induction false} CommitKeepsAgreement(l: Ledger, s: Store, index: nat, r: TxResult, slot: nat)
    requires CacheAgrees(l, s)
    ensures CacheAgrees(Commit(l, index, r, slot), s)
  {
    ResultWrites(s, l, index, r, slot);
    AccountWritesStore(ApplyBatch(s, l.batch), r, slot, |r.deltas|);
    assert r.deltas[..|r.deltas|] == r.deltas;
    DeltasOverMerge(s.accounts, l.cache, r.deltas);
  }

  /** So a read through the cache is a read of the store as it will be written. */
  lemma {:induction false} ReadThroughCache(l: Ledger, s: Store, a: Address)
    requires CacheAgrees(l, s)
    ensures View(l.cache, s.accounts, a) == View(map[], ApplyBatch(s, l.batch).accounts, a)
  {
  }

  // ---------------------------------------------------------------------------------
  // What a series of commits adds up to

  /** The ledger after committing results, each with its transaction index, one by one. */
  function CommitAll(results: seq<(nat, TxResult)>, slot: nat): (l: Ledger) {
    if |results| == 0 then EMPTY_LEDGER else
      var n := |results| - 1;
      Commit(CommitAll(results[..n], slot), results[n].0, results[n].1, slot)
  }

  ghost function AllDeltas(results: seq<(nat, TxResult)>): (r: seq<(Address, Account)>) {
    if |results| == 0 then [] else
      var n := |results| - 1;
      AllDeltas(results[..n]) + results[n].1.deltas
  }

  ghost function Fees(results: seq<(nat, TxResult)>): (r: seq<nat>) {
    seq(|results|, i requires 0 <= i < |results| => results[i].1.fee)
  }

  ghost function Units(results: seq<(nat, TxResult)>): (r: seq<nat>) {
    seq(|results|, i requires 0 <= i < |results| => results[i].1.computeUnits)
  }

  ghost function Successes(results: seq<(nat, TxResult)>): (r: set<nat>) {
    set i | 0 <= i < |results| && results[i].1.status.None?
  }

  lemma {:induction false} SuccessesMore(results: seq<(nat, TxResult)>)
    requires |results| > 0
    ensures var n := |results| - 1;
            |Successes(results)| == |Successes(results[..n])| + if results[n].1.status.None? then 1 else 0
  {
    var n := |results| - 1;
    if results[n].1.status.None? {
      assert Successes(results) == Successes(results[..n]) + {n};
    } else {
      assert Successes(results) == Successes(results[..n]);
    }
  }

  /** Counters count, totals are sums, every result has its status in order, the hasher was fed
      the accounts written in order, and the cache holds the last of them. */
  lemma {:induction false} CommitAllTotals(results: seq<(nat, TxResult)>, slot: nat)
    ensures var l := CommitAll(results, slot);
            && l.executed == |results| == |l.statuses|
            && l.succeeded == |Successes(results)| && l.failed == |results| - |Successes(results)|
            && l.fees == Sum(Fees(results)) && l.compute == Sum(Units(results))
            && (forall i :: 0 <= i < |results| ==> l.statuses[i] == (results[i].1.txHash, results[i].1.status))
  {
    hide DeltaTokens, AccountWrites, SignatureWrites, ApplyDeltas, StatusWrite;
    if |results| == 0 {
      assert Successes(results) == {};
    } else {
      var n := |results| - 1;
      CommitAllTotals(results[..n], slot);
      SuccessesMore(results);
      assert Sum(Fees(results)) == Sum(Fees(results[..n])) + results[n].1.fee by {
        assert Fees(results)[..n] == Fees(results[..n]);
      }
      assert Sum(Units(results)) == Sum(Units(results[..n])) + results[n].1.computeUnits by {
        assert Units(results)[..n] == Units(results[..n]);
      }
      hide Successes, Sum, Fees, Units;
    }
  }

  lemma {:induction false} ApplyDeltasConcat(m: map<Address, Account>, a: seq<(Address, Account)>,
      b: seq<(Address, Account)>)
    ensures ApplyDeltas(m, a + b) == ApplyDeltas(ApplyDeltas(m, a), b)
  {
    if |b| == 0 {
      assert a + b == a;
    } else {
      var n := |b| - 1;
      ApplyDeltasConcat(m, a, b[..n]);
      assert (a + b)[..|a| + n] == a + b[..n];
    }
  }

  lemma {:induction false} CommitAllDeltas(results: seq<(nat, TxResult)>, slot: nat)
    ensures CommitAll(results, slot).hashed == DeltaTokens(AllDeltas(results))
    ensures CommitAll(results, slot).cache == ApplyDeltas(map[], AllDeltas(results))
  {
    hide DeltaTokens, ApplyDeltas;
    if |results| == 0 {
      NoDeltas();
    } else {
      var n := |results| - 1;
      CommitAllDeltas(results[..n], slot);
      DeltaTokensConcat(AllDeltas(results[..n]), results[n].1.deltas);
      ApplyDeltasConcat(map[], AllDeltas(results[..n]), results[n].1.deltas);
    }
  }

  lemma {:induction false} NoDeltas()
    ensures DeltaTokens([]) == [] && ApplyDeltas(map[], []) == map[]
  {
  }

  /** Two slots have the same delta hash exactly if they wrote the same accounts in the same
      order. */
  lemma {:induction false} DeltaHashBinds(a: seq<(nat, TxResult)>, b: seq<(nat, TxResult)>, m: nat, n: nat)
    ensures Finalize(CommitAll(a, m), m).deltaHash == Finalize(CommitAll(b, n), n).deltaHash <==>
              AllDeltas(a) == AllDeltas(b)
  {
    CommitAllDeltas(a, m);
    CommitAllDeltas(b, n);
    DeltaTokensInjective(AllDeltas(a), AllDeltas(b));
    hide CommitAll, SortedEntries;
  }

  // What a reader finds once the batch is written.

  ghost function Signed(m: map<(Address, nat, nat), Address>, r: TxResult, slot: nat, index: nat,
      n: nat): (m': map<(Address, nat, nat), Address>)
    requires n <= |r.deltas|
  {
    if n == 0 then m else Signed(m, r, slot, index, n - 1)[(r.deltas[n - 1].0, slot, index % U32_LIMIT) := r.txHash]
  }

  lemma {:induction false} PutsKeepRecords(s: Store, r: TxResult, slot: nat, n: nat)
    requires n <= |r.deltas|
    ensures ApplyBatch(s, AccountWrites(r, slot, n)).statuses == s.statuses
    ensures ApplyBatch(s, AccountWrites(r, slot, n)).signatures == s.signatures
  {
    if n == 0 {
    } else {
      PutsKeepRecords(s, r, slot, n - 1);
      assert AccountWrites(r, slot, n)[..n - 1] == AccountWrites(r, slot, n - 1);
    }
  }

  lemma {:induction false} SignaturesStore(s: Store, r: TxResult, slot: nat, index: nat, n: nat)
    requires n <= |r.deltas|
    ensures ApplyBatch(s, SignatureWrites(r, slot, index, n)).statuses == s.statuses
    ensures ApplyBatch(s, SignatureWrites(r, slot, index, n)).signatures == Signed(s.signatures, r, slot, index, n)
  {
    if n == 0 {
    } else {
      SignaturesStore(s, r, slot, index, n - 1);
      var ops := SignatureWrites(r, slot, index, n);
      assert ops[..|ops| - 1] == SignatureWrites(r, slot, index, n - 1);
    }
  }

  lemma {:induction false} CommitRecords(s: Store, l: Ledger, index: nat, r: TxResult, slot: nat)
    ensures var was, now := ApplyBatch(s, l.batch), ApplyBatch(s, Commit(l, index, r, slot).batch);
            && now.statuses == was.statuses[r.txHash := StatusMeta(slot, r.status, r.fee, r.preBalances, r.postBalances,
                   r.computeUnits)]
            && now.signatures == Signed(was.signatures, r, slot, index, |r.deltas|)
  {
    var n := |r.deltas|;
    var puts, status, sigs := AccountWrites(r, slot, n), [StatusWrite(r, slot)], SignatureWrites(r, slot, index, n);
    CommitWrites(l, index, r, slot);
    assert puts + (status + sigs) == puts + status + sigs;
    ApplyBatchConcat(s, l.batch, puts + status + sigs);
    var was := ApplyBatch(s, l.batch);
    ApplyBatchConcat(was, puts + status, sigs);
    ApplyBatchConcat(was, puts, status);
    PutsKeepRecords(was, r, slot, n);
    var mid := ApplyBatch(was, puts);
    assert ApplyBatch(mid, status) == ApplyOp(mid, status[0]) by { assert status[..0] == []; }
    SignaturesStore(ApplyBatch(mid, status), r, slot, index, n);
  }

  /** Under a transaction hash stands the last result committed under it. */
  lemma {:induction false} StatusFound(s: Store, results: seq<(nat, TxResult)>, slot: nat, i: nat)
    requires i < |results| && forall j :: i < j < |results| ==> results[j].1.txHash != results[i].1.txHash
    ensures var now, r := ApplyBatch(s, CommitAll(results, slot).batch).statuses, results[i].1;
            && r.txHash in now
            && var meta := now[r.txHash];
               && meta.slot == slot && meta.status == r.status && meta.fee == r.fee
               && meta.preBalances == r.preBalances && meta.postBalances == r.postBalances
               && meta.computeUnits == r.computeUnits
  {
    hide Commit, ApplyBatch;
    var n := |results| - 1;
    CommitRecords(s, CommitAll(results[..n], slot), results[n].0, results[n].1, slot);
    if i < n {
      StatusFound(s, results[..n], slot, i);
    }
  }

  /** No other hash gets or loses a status. */
  lemma {:induction false} StatusKept(s: Store, results: seq<(nat, TxResult)>, slot: nat, h: Address)
    requires forall i :: 0 <= i < |results| ==> results[i].1.txHash != h
    ensures var now := ApplyBatch(s, CommitAll(results, slot).batch).statuses;
            (h in now <==> h in s.statuses) && (h in now ==> now[h] == s.statuses[h])
  {
    hide Commit, ApplyBatch;
    if |results| == 0 {
      NothingWritten(s);
    } else {
      var n := |results| - 1;
      StatusKept(s, results[..n], slot, h);
      CommitRecords(s, CommitAll(results[..n], slot), results[n].0, results[n].1, slot);
    }
  }

  lemma {:induction false} NothingWritten(s: Store)
    ensures ApplyBatch(s, []) == s
  {
  }

  /** A result is filed under an address it wrote, the slot and its index. */
  ghost predicate FiledUnder(r: (nat, TxResult), slot: nat, key: (Address, nat, nat)) {
    key.1 == slot && key.2 == r.0 % U32_LIMIT && exists t :: 0 <= t < |r.1.deltas| && r.1.deltas[t].0 == key.0
  }

  lemma {:induction false} SignedAt(m: map<(Address, nat, nat), Address>, r: TxResult, slot: nat, index: nat, n: nat,
      key: (Address, nat, nat))
    requires n <= |r.deltas|
    ensures var now, filed := Signed(m, r, slot, index, n), key.1 == slot && key.2 == index % U32_LIMIT
              && exists t :: 0 <= t < n && r.deltas[t].0 == key.0;
            && (key in now <==> key in m || filed)
            && (key in now ==> now[key] == if filed then r.txHash else m[key])
  {
    if n == 0 {
    } else {
      SignedAt(m, r, slot, index, n - 1, key);
    }
  }

  /** Under an address, slot and index stands the hash of the last result filed there. */
  lemma {:induction false} SignatureFound(s: Store, results: seq<(nat, TxResult)>, slot: nat, key: (Address, nat, nat))
    ensures var now := ApplyBatch(s, CommitAll(results, slot).batch).signatures;
            && (key in now <==>
                  key in s.signatures || exists i :: 0 <= i < |results| && FiledUnder(results[i], slot, key))
            && ((forall i :: 0 <= i < |results| ==> !FiledUnder(results[i], slot, key)) && key in now ==>
                  now[key] == s.signatures[key])
            && (forall i :: 0 <= i < |results| && FiledUnder(results[i], slot, key)
                            && (forall j :: i < j < |results| ==> !FiledUnder(results[j], slot, key)) ==>
                  key in now && now[key] == results[i].1.txHash)
  {
    hide Commit, ApplyBatch, Signed;
    if |results| == 0 {
      NothingWritten(s);
    } else {
      var n, was := |results| - 1, CommitAll(results[..|results| - 1], slot);
      SignatureFound(s, results[..n], slot, key);
      CommitRecords(s, was, results[n].0, results[n].1, slot);
      SignedAt(ApplyBatch(s, was.batch).signatures, results[n].1, slot, results[n].0, |results[n].1.deltas|, key);
      assert FiledUnder(results[n], slot, key) <==>
             key.1 == slot && key.2 == results[n].0 % U32_LIMIT
             && exists t :: 0 <= t < |results[n].1.deltas| && results[n].1.deltas[t].0 == key.0;
      hide FiledUnder;
      assert forall i :: 0 <= i < n ==> results[..n][i] == results[i];
    }
  }

  // ---------------------------------------------------------------------------------
  // The owner index

  const EMPTY_STORE := Store(map[], {}, map[], map[])

  /** Entries for real owners are exact; an entry for the zero owner is at least true. */
  ghost predicate OwnersExact(s: Store) {
    && (forall o, a :: o != ZERO_ADDRESS ==> ((o, a) in s.owners <==> a in s.accounts && s.accounts[a].owner == o))
    && (forall a :: (ZERO_ADDRESS, a) in s.owners ==> a in s.accounts && s.accounts[a].owner == ZERO_ADDRESS)
  }

  /** The address has an owner, or the index shows that it had one. */
  ghost predicate Owned(s: Store, a: Address) {
    View(map[], s.accounts, a).owner != ZERO_ADDRESS || (ZERO_ADDRESS, a) in s.owners
  }

  /** An account write that names as the earlier account the one a reader would find (the
      empty zero-owned account when there is none). */
  ghost predicate NamesCurrent(s: Store, op: WriteOp) {
    op.PutAccount? ==> op.prior == Some(View(map[], s.accounts, op.address))
  }

  /** One such write keeps the index exact.  It leaves an entry of the zero owner exactly if
      it gives the account to the zero owner and the account was owned, and marks as owned
      exactly what it gives to an owner. */
  lemma {:induction false} WriteKeepsOwners(s: Store, op: WriteOp, a: Address)
    requires OwnersExact(s) && NamesCurrent(s, op)
    ensures OwnersExact(ApplyOp(s, op))
    ensures op.PutAccount? && op.address == a ==>
              ((ZERO_ADDRESS, a) in ApplyOp(s, op).owners <==> op.account.owner == ZERO_ADDRESS && Owned(s, a))
    ensures Owned(ApplyOp(s, op), a) <==> Owned(s, a) || GivesOwner(op, a)
  {
    if op.PutAccount? {
      var s' := ApplyOp(s, op);
      forall o, b | o != ZERO_ADDRESS
        ensures (o, b) in s'.owners <==> b in s'.accounts && s'.accounts[b].owner == o
      {
        assert (o, b) in s.owners <==> b in s.accounts && s.accounts[b].owner == o;
      }
    }
  }

  predicate GivesOwner(op: WriteOp, a: Address) {
    op.PutAccount? && op.address == a && op.account.owner != ZERO_ADDRESS
  }

  /** Some of the writes gives the address to an owner. */
  ghost predicate HadOwner(ops: seq<WriteOp>, a: Address) {
    exists i :: 0 <= i < |ops| && GivesOwner(ops[i], a)
  }

  /** Every account write names the account a reader would find just before it. */
  ghost predicate AllNameCurrent(s: Store, ops: seq<WriteOp>) {
    forall i :: 0 <= i < |ops| ==> NamesCurrent(ApplyBatch(s, ops[..i]), ops[i])
  }

  lemma {:induction false} WritesKeepOwners(s: Store, ops: seq<WriteOp>, a: Address)
    requires OwnersExact(s) && AllNameCurrent(s, ops)
    ensures OwnersExact(ApplyBatch(s, ops))
    ensures Owned(ApplyBatch(s, ops), a) <==> Owned(s, a) || HadOwner(ops, a)
  {
    hide OwnersExact, Owned, NamesCurrent, ApplyOp, GivesOwner;
    if |ops| == 0 {
    } else {
      var n := |ops| - 1;
      forall i | 0 <= i < n ensures NamesCurrent(ApplyBatch(s, ops[..n][..i]), ops[..n][i]) {
        assert ops[..n][..i] == ops[..i];
      }
      WritesKeepOwners(s, ops[..n], a);
      WriteKeepsOwners(ApplyBatch(s, ops[..n]), ops[n], a);
      assert HadOwner(ops, a) <==> HadOwner(ops[..n], a) || GivesOwner(ops[n], a) by {
        assert ops == ops[..n] + [ops[n]];
      }
    }
  }

  /** After such writes the index is exact for every owner but the zero one, and holds an
      account of the zero owner exactly if the account was owned before. */
  ghost predicate IndexAfter(s: Store, ops: seq<WriteOp>) {
    var now := ApplyBatch(s, ops);
    && OwnersExact(now)
    && forall a :: (ZERO_ADDRESS, a) in now.owners <==>
                   a in now.accounts && now.accounts[a].owner == ZERO_ADDRESS && (Owned(s, a) || HadOwner(ops, a))
  }

  lemma {:induction false} ZeroOwnerIff(s: Store, ops: seq<WriteOp>)
    requires OwnersExact(s) && AllNameCurrent(s, ops)
    ensures IndexAfter(s, ops)
  {
    hide AllNameCurrent, HadOwner, ApplyBatch;
    WritesKeepOwners(s, ops, 0);
    forall a: Address
      ensures Owned(ApplyBatch(s, ops), a) <==> Owned(s, a) || HadOwner(ops, a)
    {
      WritesKeepOwners(s, ops, a);
    }
  }

  /** From the empty store on: an account of the zero owner is indexed exactly if some earlier
      write gave it to another owner. */
  lemma {:induction false} IndexFromEmpty(ops: seq<WriteOp>, a: Address)
    requires AllNameCurrent(EMPTY_STORE, ops)
    ensures var now := ApplyBatch(EMPTY_STORE, ops);
            && OwnersExact(now)
            && ((ZERO_ADDRESS, a) in now.owners <==>
                a in now.accounts && now.accounts[a].owner == ZERO_ADDRESS && HadOwner(ops, a))
  {
    hide AllNameCurrent, HadOwner, ApplyBatch;
    ZeroOwnerIff(EMPTY_STORE, ops);
  }

  /** The account writes of one result name current accounts when the result's loaded
      accounts are what a reader finds and its deltas are loaded addresses without repeats. */
  lemma {:induction false} AccountWritesNameCurrent(s: Store, r: TxResult, slot: nat, i: nat)
    requires i < |r.deltas| && DistinctKeys(r.deltas)
    requires forall t :: 0 <= t < |r.deltas| ==>
               r.deltas[t].0 in r.loaded && r.loaded[r.deltas[t].0] == View(map[], s.accounts, r.deltas[t].0)
    ensures var ops := AccountWrites(r, slot, |r.deltas|);
            NamesCurrent(ApplyBatch(s, ops[..i]), ops[i])
  {
    AccountWritesPrefix(r, slot, i, |r.deltas|);
    AccountWritesStore(s, r, slot, i);
    ApplyDeltasAt(s.accounts, r.deltas[..i], r.deltas[i].0);
  }

  lemma {:induction false} AccountWritesPrefix(r: TxResult, slot: nat, i: nat, n: nat)
    requires i < n <= |r.deltas|
    ensures var ops := AccountWrites(r, slot, n);
            && ops[..i] == AccountWrites(r, slot, i)
            && ops[i] == PutAccount(r.deltas[i].0, slot, r.deltas[i].1, OldAccount(r, r.deltas[i].0))
    decreases n
  {
    var shorter := AccountWrites(r, slot, n - 1);
    assert AccountWrites(r, slot, n)[..n - 1] == shorter;
    if i == n - 1 {
    } else {
      AccountWritesPrefix(r, slot, i, n - 1);
      assert AccountWrites(r, slot, n)[..i] == shorter[..i];
    }
  }

  lemma {:induction false} NameCurrentConcat(s: Store, a: seq<WriteOp>, b: seq<WriteOp>)
    requires AllNameCurrent(s, a) && AllNameCurrent(ApplyBatch(s, a), b)
    ensures AllNameCurrent(s, a + b)
  {
    hide NamesCurrent, ApplyBatch;
    var ops := a + b;
    forall i | 0 <= i < |ops| ensures NamesCurrent(ApplyBatch(s, ops[..i]), ops[i]) {
      if i < |a| {
        assert ops[..i] == a[..i] && NamesCurrent(ApplyBatch(s, a[..i]), a[i]);
      } else {
        var k := i - |a|;
        assert ops[..i] == a + b[..k] && NamesCurrent(ApplyBatch(ApplyBatch(s, a), b[..k]), b[k]);
        ApplyBatchConcat(s, a, b[..k]);
      }
    }
  }

  lemma {:induction false} RecordsNameCurrent(s: Store, ops: seq<WriteOp>)
    requires forall i :: 0 <= i < |ops| ==> !ops[i].PutAccount?
    ensures AllNameCurrent(s, ops)
  {
  }

  lemma {:induction false} CommitWrites(l: Ledger, index: nat, r: TxResult, slot: nat)
    ensures var n := |r.deltas|;
            Commit(l, index, r, slot).batch == l.batch +
              (AccountWrites(r, slot, n) + ([StatusWrite(r, slot)] + SignatureWrites(r, slot, index, n)))
  {
    hide AccountWrites, SignatureWrites, DeltaTokens, ApplyDeltas;
  }

  /** Committing a result that was loaded as a reader finds it appends such writes. */
  lemma {:induction false} CommitNamesCurrent(s: Store, l: Ledger, index: nat, r: TxResult, slot: nat)
    requires AllNameCurrent(s, l.batch) && DistinctKeys(r.deltas)
    requires forall t :: 0 <= t < |r.deltas| ==>
               && r.deltas[t].0 in r.loaded
               && r.loaded[r.deltas[t].0] == View(map[], ApplyBatch(s, l.batch).accounts, r.deltas[t].0)
    ensures AllNameCurrent(s, Commit(l, index, r, slot).batch)
  {
    var n, mid := |r.deltas|, ApplyBatch(s, l.batch);
    var puts, rest := AccountWrites(r, slot, n), [StatusWrite(r, slot)] + SignatureWrites(r, slot, index, n);
    CommitWrites(l, index, r, slot);
    SignaturesAreRecords(r, slot, index, n);
    hide Commit, AccountWrites, SignatureWrites, NamesCurrent, ApplyBatch, View;
    forall i | 0 <= i < |puts| ensures NamesCurrent(ApplyBatch(mid, puts[..i]), puts[i]) {
      AccountWritesNameCurrent(mid, r, slot, i);
    }
    assert AllNameCurrent(mid, puts);
    RecordsNameCurrent(ApplyBatch(mid, puts), rest);
    NameCurrentConcat(mid, puts, rest);
    NameCurrentConcat(s, l.batch, puts + rest);
  }

  lemma {:induction false} SignaturesAreRecords(r: TxResult, slot: nat, index: nat, n: nat)
    requires n <= |r.deltas|
    ensures forall i :: 0 <= i < |SignatureWrites(r, slot, index, n)| ==>
              SignatureWrites(r, slot, index, n)[i].PutSignature?
  {
    if n == 0 {
    } else {
      SignaturesAreRecords(r, slot, index, n - 1);
    }
  }

  /** A new account that keeps the zero owner gets no index entry: the loader reports it as
      an existing zero-owned account, so its owner does not look changed.  Handed to an owner
      and back it gets one. */
  lemma {:induction false} ZeroOwnerUnindexed(a: Address, slot: nat, owner: Address, account: Account)
    requires account.owner == ZERO_ADDRESS && owner != ZERO_ADDRESS
    ensures var s := ApplyOp(EMPTY_STORE, PutAccount(a, slot, account, Some(EMPTY_ACCOUNT)));
            var t := ApplyOp(s, PutAccount(a, slot, account.(owner := owner), Some(account)));
            var u := ApplyOp(t, PutAccount(a, slot, account, Some(account.(owner := owner))));
            && s.accounts == u.accounts == map[a := account]
            && (ZERO_ADDRESS, a) !in s.owners && (ZERO_ADDRESS, a) in u.owners
  {
  }

  // ---------------------------------------------------------------------------------
  // The slot's result

  datatype SlotResult = SlotResult(
    slot: nat, executed: nat, succeeded: nat, failed: nat, fees: nat, compute: nat,
    deltaHash: Digest,
    deltas: seq<(Address, Account)>,
    statuses: seq<(Address, Option<RuntimeError>)>)

  /** The cache's entries by increasing address. */
  function SortedEntries(cache: map<Address, Account>): (r: seq<(Address, Account)>) {
    var keys := SortedKeys(cache.Keys);
    seq(|keys|, i requires 0 <= i < |keys| => assert keys[i] in keys; (keys[i], cache[keys[i]]))
  }

  /** In strict address order, each touched address once, with its last written account. */
  ghost predicate ListsInOrder(cache: map<Address, Account>, r: seq<(Address, Account)>) {
    && (forall i, j :: 0 <= i < j < |r| ==> r[i].0 < r[j].0)
    && (forall i :: 0 <= i < |r| ==> r[i].0 in cache && r[i].1 == cache[r[i].0])
    && (forall a :: a in cache ==> exists i :: 0 <= i < |r| && r[i].0 == a)
  }

  lemma {:induction false} SortedEntriesList(cache: map<Address, Account>)
    ensures ListsInOrder(cache, SortedEntries(cache))
  {
    hide SortedKeys;
    var keys, e := SortedKeys(cache.Keys), SortedEntries(cache);
    assert |e| == |keys| && forall i :: 0 <= i < |keys| ==> e[i].0 == keys[i] && e[i].1 == cache[keys[i]];
    hide SortedEntries;
    forall a | a in cache ensures exists i :: 0 <= i < |e| && e[i].0 == a {
      KeyListed(keys, e, a);
    }
    forall i | 0 <= i < |e| ensures e[i].0 in cache {
      assert keys[i] in keys;
    }
  }

  lemma {:induction false} KeyListed(keys: seq<Address>, e: seq<(Address, Account)>, a: Address)
    requires |e| == |keys| && forall i :: 0 <= i < |keys| ==> e[i].0 == keys[i]
    requires a in keys
    ensures exists i :: 0 <= i < |e| && e[i].0 == a
  {
    var i :| 0 <= i < |keys| && keys[i] == a;
    assert e[i].0 == a;
  }

  /** Only the sorted entries list the cache in order, so the order in which a hash map
      hands its entries to the sort does not matter. */
  lemma {:induction false} SortedEntriesUnique(cache: map<Address, Account>, r: seq<(Address, Account)>)
    requires ListsInOrder(cache, r)
    ensures r == SortedEntries(cache)
  {
    hide SortedKeys;
    var ks := Firsts(r);
    assert StrictlySorted(ks);
    forall a ensures a in ks <==> a in cache {
      if a in ks {
        var i :| 0 <= i < |ks| && ks[i] == a;
      }
      if a in cache {
        var i :| 0 <= i < |r| && r[i].0 == a;
        assert ks[i] == a;
      }
    }
    SortedUnique(ks, SortedKeys(cache.Keys));
    forall i | 0 <= i < |r| ensures r[i] == SortedEntries(cache)[i] {
      assert r[i].0 == ks[i];
    }
  }

  ghost function Firsts(r: seq<(Address, Account)>): (ks: seq<Address>)
    ensures |ks| == |r| && forall i :: 0 <= i < |r| ==> ks[i] == r[i].0
  {
    seq(|r|, i requires 0 <= i < |r| => r[i].0)
  }

  function Finalize(l: Ledger, slot: nat): (r: SlotResult) {
    SlotResult(slot, l.executed, l.succeeded, l.failed, l.fees, l.compute, Hashed(l.hashed), SortedEntries(l.cache),
        l.statuses)
  }

  // ---------------------------------------------------------------------------------
  // The committer object and the storage object

  class SlotCommitter {
    var executed: nat
    var succeeded: nat
    var failed: nat
    var fees: nat
    var compute: nat
    var hashed: seq<Token>
    var batch: seq<WriteOp>
    var statuses: seq<(Address, Option<RuntimeError>)>
    var cache: map<Address, Account>

    ghost function State(): Ledger
      reads this
    {
      Ledger(executed, succeeded, failed, fees, compute, hashed, batch, statuses, cache)
    }

    constructor ()
      ensures State() == EMPTY_LEDGER
    {
      executed, succeeded, failed, fees, compute := 0, 0, 0, 0, 0;
      hashed, batch, statuses, cache := [], [], [], map[];
    }

    method CommitResult(index: nat, r: TxResult, slot: nat)
      modifies this
      ensures State() == Commit(old(State()), index, r, slot)
    {
      hide AccountTokens, ApplyDeltas;
      executed, fees, compute := executed + 1, fees + r.fee, compute + r.computeUnits;
      if r.status.None? {
        succeeded := succeeded + 1;
      } else {
        failed := failed + 1;
      }
      statuses := statuses + [(r.txHash, r.status)];
      RecordDeltas(r, slot);
      batch := batch + [StatusWrite(r, slot)];
      RecordSignatures(r, slot, index);
    }

    method RecordDeltas(r: TxResult, slot: nat)
      modifies this`hashed, this`batch, this`cache
      ensures batch == old(batch) + AccountWrites(r, slot, |r.deltas|)
      ensures hashed == old(hashed) + DeltaTokens(r.deltas)
      ensures cache == ApplyDeltas(old(cache), r.deltas)
    {
      hide AccountTokens;
      for t := 0 to |r.deltas|
        invariant batch == old(batch) + AccountWrites(r, slot, t)
        invariant hashed == old(hashed) + DeltaTokens(r.deltas[..t])
        invariant cache == ApplyDeltas(old(cache), r.deltas[..t])
      {
        var (a, account) := r.deltas[t];
        assert r.deltas[..t + 1][..t] == r.deltas[..t];
        batch := batch + [PutAccount(a, slot, account, OldAccount(r, a))];
        hashed := hashed + AccountTokens(a, account);
        cache := cache[a := account];
      }
      assert r.deltas[..|r.deltas|] == r.deltas;
    }

    method RecordSignatures(r: TxResult, slot: nat, index: nat)
      modifies this`batch
      ensures batch == old(batch) + SignatureWrites(r, slot, index, |r.deltas|)
    {
      for t := 0 to |r.deltas|
        invariant batch == old(batch) + SignatureWrites(r, slot, index, t)
      {
        batch := batch + [PutSignature(r.deltas[t].0, slot, index % U32_LIMIT, r.txHash)];
      }
    }

    /** Hands over the pending writes and forgets them. */
    method TakeWriteBatch() returns (ops: seq<WriteOp>)
      modifies this`batch
      ensures ops == old(batch) && batch == []
    {
      ops := batch;
      batch := [];
    }

    method FinalizeSlot(slot: nat) returns (r: SlotResult)
      ensures r == Finalize(State(), slot)
    {
      r := SlotResult(slot, executed, succeeded, failed, fees, compute, Hashed(hashed), SortedEntries(cache), statuses);
    }
  }

  class Storage {
    var contents: Store

    constructor (s: Store)
      ensures contents == s
    {
      contents := s;
    }

    method Write(ops: seq<WriteOp>)
      modifies this
      ensures contents == ApplyBatch(old(contents), ops)
    {
      for t := 0 to |ops|
        invariant contents == ApplyBatch(old(contents), ops[..t])
      {
        assert ops[..t + 1][..t] == ops[..t];
        contents := ApplyOp(contents, ops[t]);
      }
      assert ops[..|ops|] == ops;
    }
  }
}
