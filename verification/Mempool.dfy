/** The transaction pool (mempool/src/pool.rs): bounded, ordered by price, one entry per
    transaction hash, and with at most a fixed number of entries per payer. */
module Mempools {
  import opened Crypto
  import opened PoolIndexes

  const MAX_TXS_PER_ACCOUNT: nat := 64

  datatype MalformedReason = PayerMissing | SignatureCount

  datatype MempoolError =
    | Full(capacity: nat)
    | DuplicateTransaction
    | AccountLimitExceeded(payer: Address, limit: nat)
    | Malformed(reason: MalformedReason)

  // ---------------------------------------------------------------------------------
  // What an insertion does, told by the pool's contents alone

  ghost function Outcome(pool: Pool, capacity: nat, tx: Tx): (r: Result<(), MempoolError>)
    requires capacity > 0
  {
    if tx.accountKeys == [] then Err(Malformed(PayerMissing))
    else if tx.signatures != tx.requiredSignatures then Err(Malformed(SignatureCount))
    else if HasHash(pool, tx.hash) then Err(DuplicateTransaction)
    else if |ByPayer(pool, tx.accountKeys[0])| >= MAX_TXS_PER_ACCOUNT then
        Err(AccountLimitExceeded(tx.accountKeys[0], MAX_TXS_PER_ACCOUNT))
    else if |pool| >= capacity && pool.Keys != {} && tx.price <= Last(pool.Keys).priority then Err(Full(capacity))
    else Ok(())
  }

  /** The worst entry makes room when the pool is full. */
  ghost function MakeRoom(pool: Pool, capacity: nat): (r: Pool) {
    if |pool| >= capacity && pool.Keys != {} then pool - {Last(pool.Keys)} else pool
  }

  // The same in terms of the entries.

  predicate WellMade(tx: Tx) {
    tx.accountKeys != [] && tx.signatures == tx.requiredSignatures
  }

  ghost predicate Holds(pool: Pool, hash: Address) {
    exists k :: k in pool && pool[k].transaction.hash == hash
  }

  ghost function KeysOfPayer(pool: Pool, payer: Address): (r: set<Key>) {
    set k | k in pool && pool[k].transaction.accountKeys != [] && pool[k].transaction.accountKeys[0] == payer
  }

  /** The new entry stands under its price and sequence number; every other one stays, except
      that in a full pool the last in order of falling price and arrival is gone. */
  ghost predicate TakenIn(was: Pool, capacity: nat, tx: Tx, sequence: nat, now: Pool) {
    var key := Key(tx.price, sequence);
    && key in now && now[key].transaction == tx && now[key].txHash == tx.hash
    && tx.accountKeys != [] && now[key].payer == tx.accountKeys[0]
    && (forall k :: k in now && k != key ==> k in was && now[k] == was[k])
    && (|was| < capacity ==> forall k :: k in was ==> k in now)
    && (|was| >= capacity && was != map[] ==>
          exists worst :: worst in was && worst !in now && (forall k :: k in was && k != worst ==> k in now)
            && forall k :: k in was && k != worst ==>
                 k.priority > worst.priority || (k.priority == worst.priority && k.sequence < worst.sequence))
  }

  lemma {:induction false} TrueEntries(pool: Pool, sequence: nat, p: Address, h: Address)
    requires KeysTrue(pool, sequence)
    ensures KeysOfPayer(pool, p) == ByPayer(pool, p) && (Holds(pool, h) <==> HasHash(pool, h))
  {
    forall k | k in pool ensures EntryTrue(k, pool[k]) { }
    if Holds(pool, h) {
      var k :| k in pool && pool[k].transaction.hash == h;
      assert pool[k].txHash == h;
    }
  }

  lemma {:induction false} OutcomeFields(pool: Pool, sequence: nat, capacity: nat, tx: Tx)
    requires KeysTrue(pool, sequence) && capacity > 0
    ensures var r := Outcome(pool, capacity, tx);
            && (r == Err(Malformed(PayerMissing)) <==> tx.accountKeys == [])
            && (r == Err(Malformed(SignatureCount)) <==>
                  tx.accountKeys != [] && tx.signatures != tx.requiredSignatures)
            && (r == Err(DuplicateTransaction) <==> WellMade(tx) && Holds(pool, tx.hash))
            && (r.Err? && r.error.AccountLimitExceeded? <==>
                  WellMade(tx) && !Holds(pool, tx.hash) && |KeysOfPayer(pool, tx.accountKeys[0])| >= 64)
            && (r.Err? && r.error.AccountLimitExceeded? ==> r.error == AccountLimitExceeded(tx.accountKeys[0], 64))
            && (r.Err? && r.error.Full? <==>
                  && WellMade(tx) && !Holds(pool, tx.hash) && |KeysOfPayer(pool, tx.accountKeys[0])| < 64
                  && |pool| >= capacity && forall k :: k in pool ==> tx.price <= k.priority)
            && (r.Err? && r.error.Full? ==> r.error == Full(capacity))
  {
    if tx.accountKeys != [] {
      TrueEntries(pool, sequence, tx.accountKeys[0], tx.hash);
      hide Holds, HasHash, KeysOfPayer, ByPayer, KeysTrue;
      if |pool| >= capacity {
        assert pool.Keys != {};
        assert IsLast(pool.Keys, Last(pool.Keys));
        hide Last;
      }
    }
  }

  lemma {:induction false} RoomFields(pool: Pool, sequence: nat, capacity: nat, tx: Tx)
    requires KeysTrue(pool, sequence) && tx.accountKeys != []
    ensures TakenIn(pool, capacity, tx, sequence, Added(MakeRoom(pool, capacity), sequence, tx))
  {
    assert Key(tx.price, sequence) !in pool;
    hide KeysTrue, TakenIn;
    if |pool| >= capacity && pool.Keys != {} {
      TakenFull(pool, capacity, tx, sequence, Last(pool.Keys));
    } else {
      TakenSpare(pool, capacity, tx, sequence);
    }
  }

  lemma {:induction false} TakenSpare(pool: Pool, capacity: nat, tx: Tx, sequence: nat)
    requires Key(tx.price, sequence) !in pool && tx.accountKeys != []
    requires !(|pool| >= capacity && pool.Keys != {})
    ensures TakenIn(pool, capacity, tx, sequence, Added(pool, sequence, tx))
  {
    assert pool != map[] ==> pool.Keys != {};
  }

  lemma {:induction false} TakenFull(pool: Pool, capacity: nat, tx: Tx, sequence: nat, worst: Key)
    requires Key(tx.price, sequence) !in pool && tx.accountKeys != []
    requires |pool| >= capacity && IsLast(pool.Keys, worst)
    ensures TakenIn(pool, capacity, tx, sequence, Added(pool - {worst}, sequence, tx))
  {
    var now := Added(pool - {worst}, sequence, tx);
    LastIsWorst(pool, worst);
    hide IsLast, Before;
    assert worst in pool && worst !in now && forall k :: k in pool && k != worst ==> k in now;
  }

  lemma {:induction false} LastIsWorst(pool: Pool, worst: Key)
    requires IsLast(pool.Keys, worst)
    ensures worst in pool
    ensures forall k :: k in pool && k != worst ==>
              k.priority > worst.priority || (k.priority == worst.priority && k.sequence < worst.sequence)
  {
  }

  ghost predicate LimitKept(counts: map<Address, nat>) {
    forall p :: p in counts ==> counts[p] <= MAX_TXS_PER_ACCOUNT
  }

  /** The pool with a transaction added under its key. */
  ghost function Added(pool: Pool, sequence: nat, tx: Tx): (r: Pool)
    requires tx.accountKeys != []
  {
    pool[Key(tx.price, sequence) := Entry(tx, tx.hash, tx.accountKeys[0])]
  }

  /** The entries that name a valid blockhash. */
  ghost function Unexpired(pool: Pool, valid: set<Address>): (r: Pool) {
    map k | k in pool && pool[k].transaction.recentBlockhash in valid :: pool[k]
  }

  lemma {:induction false} RestrictTakeOut(pool: Pool, keys: set<Key>, k: Key)
    requires keys <= pool.Keys
    ensures (map x | x in pool && x in keys :: pool[x]) - {k} == map x | x in pool && x in keys - {k} :: pool[x]
  {
  }

  class Mempool {
    var pool: Pool
    var dedup: set<Address>
    var accountCounts: map<Address, nat>
    var blockhashIndex: map<Address, set<Key>>
    var sequence: nat
    const maxCapacity: nat

    /** The hashes and the counts are those of the pool. */
    ghost predicate Consistent()
      reads this
    {
      DedupExact(pool, dedup) && CountsExact(pool, accountCounts) && KeysTrue(pool, sequence) &&
          LimitKept(accountCounts)
    }

    ghost predicate Valid()
      reads this
    {
      maxCapacity > 0 && Consistent() && IndexExact(pool, blockhashIndex) && |pool| <= maxCapacity
    }

    constructor (capacity: nat)
      requires capacity > 0
      ensures Valid() && pool == map[] && sequence == 0 && maxCapacity == capacity
    {
      pool, dedup, accountCounts, blockhashIndex, sequence := map[], {}, map[], map[], 0;
      maxCapacity := capacity;
      new;
      assert forall p :: ByPayer(pool, p) == {};
      assert forall bh :: ByBlockhash(pool, bh) == {};
    }

    /** Takes one entry out of the pool, the hashes and the counts. */
    method Forget(key: Key)
      requires Consistent() && key in pool
      modifies `pool, `dedup, `accountCounts
      ensures Consistent() && pool == old(pool) - {key}
    {
      hide DedupExact, CountsExact;
      var entry := pool[key];
      TakeOutDedup(pool, dedup, key);
      TakeOutCounts(pool, accountCounts, key);
      pool := pool - {key};
      dedup := dedup - {entry.txHash};
      accountCounts := accountCounts[entry.payer := accountCounts[entry.payer] - 1];
      if accountCounts[entry.payer] == 0 {
        accountCounts := accountCounts - {entry.payer};
      }
      assert accountCounts == CountDown(old(accountCounts), entry.payer);
    }

    /** Takes one entry out of everything. */
    method Discard(key: Key)
      requires Valid() && key in pool
      modifies `pool, `dedup, `accountCounts, `blockhashIndex
      ensures Valid() && pool == old(pool) - {key} && |pool| == |old(pool)| - 1
    {
      hide DedupExact, CountsExact, IndexExact, KeysTrue, LimitKept;
      var bh := pool[key].transaction.recentBlockhash;
      TakeOutIndex(pool, blockhashIndex, key);
      assert (pool - {key}).Keys == pool.Keys - {key};
      Forget(key);
      if bh in blockhashIndex {
        blockhashIndex := blockhashIndex[bh := blockhashIndex[bh] - {key}];
        if blockhashIndex[bh] == {} {
          blockhashIndex := blockhashIndex - {bh};
        }
      }
      assert blockhashIndex == Unindex(old(blockhashIndex), bh, key);
    }

    /** Inserts a transaction or says why not; a refused one changes nothing, not even the
        sequence counter. */
    method Insert(tx: Tx) returns (r: Result<(), MempoolError>)
      requires Valid()
      modifies this
      ensures Valid()
      ensures r == Outcome(old(pool), maxCapacity, tx)
      ensures r == Err(Malformed(PayerMissing)) <==> tx.accountKeys == []
      ensures r == Err(Malformed(SignatureCount)) <==> tx.accountKeys != [] && tx.signatures != tx.requiredSignatures
      ensures r == Err(DuplicateTransaction) <==> WellMade(tx) && Holds(old(pool), tx.hash)
      ensures r.Err? && r.error.AccountLimitExceeded? <==>
                WellMade(tx) && !Holds(old(pool), tx.hash) && |KeysOfPayer(old(pool), tx.accountKeys[0])| >= 64
      ensures r.Err? && r.error.AccountLimitExceeded? ==> r.error == AccountLimitExceeded(tx.accountKeys[0], 64)
      ensures r.Err? && r.error.Full? <==>
                && WellMade(tx) && !Holds(old(pool), tx.hash) && |KeysOfPayer(old(pool), tx.accountKeys[0])| < 64
                && |old(pool)| >= maxCapacity && forall k :: k in old(pool) ==> tx.price <= k.priority
      ensures r.Err? && r.error.Full? ==> r.error == Full(maxCapacity)
      ensures r.Err? ==> unchanged(this)
      ensures r.Ok? ==>
                && sequence == old(sequence) + 1
                && pool == Added(MakeRoom(old(pool), maxCapacity), old(sequence), tx)
                && TakenIn(old(pool), maxCapacity, tx, old(sequence), pool)
                && |pool| == if |old(pool)| >= maxCapacity then |old(pool)| else |old(pool)| + 1
    {
      hide DedupExact, CountsExact, IndexExact, KeysTrue, LimitKept, IsLast, TakenIn, Holds, KeysOfPayer;
      OutcomeFields(pool, sequence, maxCapacity, tx);
      if |tx.accountKeys| == 0 {
        return Err(Malformed(PayerMissing));
      }
      if tx.signatures != tx.requiredSignatures {
        return Err(Malformed(SignatureCount));
      }
      var payer := tx.accountKeys[0];
      RoomFields(pool, sequence, maxCapacity, tx);
      DedupMeaning(pool, dedup, tx.hash);
      if tx.hash in dedup {
        return Err(DuplicateTransaction);
      }
      CountMeaning(pool, accountCounts, payer);
      if payer in accountCounts && accountCounts[payer] >= MAX_TXS_PER_ACCOUNT {
        return Err(AccountLimitExceeded(payer, MAX_TXS_PER_ACCOUNT));
      }
      if |pool| >= maxCapacity {
        var worst := WorstKey();
        if tx.price <= worst.priority {
          return Err(Full(maxCapacity));
        }
        TakeOutBelow(pool, accountCounts, worst, payer);
        HashTakeOut(pool, worst, tx.hash);
        Discard(worst);
        CountMeaning(pool, accountCounts, payer);
        DedupMeaning(pool, dedup, tx.hash);
      }
      Admit(tx);
      r := Ok(());
    }

    /** Adds an entry under the next sequence number. */
    method Admit(tx: Tx)
      requires Valid() && |pool| < maxCapacity && tx.accountKeys != [] && tx.hash !in dedup
      requires tx.accountKeys[0] in accountCounts ==> accountCounts[tx.accountKeys[0]] < MAX_TXS_PER_ACCOUNT
      modifies this
      ensures Valid() && sequence == old(sequence) + 1
      ensures pool == Added(old(pool), old(sequence), tx)
      ensures |pool| == |old(pool)| + 1
    {
      hide DedupExact, CountsExact, IndexExact, KeysTrue, LimitKept, EntryTrue, ByPayer, ByBlockhash, HasHash;
      assert EntryTrue(Key(tx.price, sequence), Entry(tx, tx.hash, tx.accountKeys[0])) by { EntryIs(tx, sequence); }
      var payer, bh := tx.accountKeys[0], tx.recentBlockhash;
      var key, entry := Key(tx.price, sequence), Entry(tx, tx.hash, payer);
      PutInKeys(pool, sequence, key, entry);
      PutInLimit(accountCounts, payer);
      PutInDedup(pool, dedup, key, entry);
      PutInCounts(pool, accountCounts, key, entry);
      PutInIndex(pool, blockhashIndex, key, entry);
      sequence := sequence + 1;
      dedup := dedup + {tx.hash};
      accountCounts := accountCounts[payer := (if payer in accountCounts then accountCounts[payer] else 0) + 1];
      blockhashIndex := blockhashIndex[bh := (if bh in blockhashIndex then blockhashIndex[bh] else {}) + {key}];
      pool := pool[key := entry];
    }

    /** The last key of the ordered map. */
    method WorstKey() returns (k: Key)
      requires |pool| > 0
      ensures pool.Keys != {} && k == Last(pool.Keys) && k in pool
    {
      assert pool.Keys != {};
      assert IsLast(pool.Keys, Last(pool.Keys));
      k :| k in pool.Keys && IsLast(pool.Keys, k);
      LastUnique(pool.Keys, k);
    }

    method BestKey() returns (k: Key)
      requires |pool| > 0
      ensures pool.Keys != {} && k == First(pool.Keys) && k in pool
    {
      assert pool.Keys != {};
      assert IsFirst(pool.Keys, First(pool.Keys));
      k :| k in pool.Keys && IsFirst(pool.Keys, k);
      FirstUnique(pool.Keys, k);
    }

    /** Takes out up to `max` transactions, best first. */
    method DrainByPriority(max: nat) returns (txs: seq<Tx>)
      requires Valid()
      modifies this
      ensures Valid() && sequence == old(sequence)
      ensures pool == map k | k in old(pool) && k in Behind(old(pool).Keys, max) :: old(pool)[k]
      ensures |txs| == |Front(old(pool).Keys, max)|
      ensures forall i :: 0 <= i < |txs| ==>
                Front(old(pool).Keys, max)[i] in old(pool) &&
                    txs[i] == old(pool)[Front(old(pool).Keys, max)[i]].transaction
    {
      hide DedupExact, CountsExact, IndexExact, KeysTrue, LimitKept, First, Last, Front, Behind;
      txs := [];
      var count := if max <= |pool| then max else |pool|;
      ghost var was := pool;
      BehindNone(was.Keys);
      for i := 0 to count
        invariant Valid() && sequence == old(sequence) && |txs| == i && |pool| == |was| - i
        invariant pool == map k | k in was && k in Behind(was.Keys, i) :: was[k]
        invariant pool.Keys == Behind(was.Keys, i) <= was.Keys
        invariant |Front(was.Keys, i)| == i
        invariant forall j :: 0 <= j < i ==>
                  Front(was.Keys, i)[j] in was && txs[j] == was[Front(was.Keys, i)[j]].transaction
      {
        var key := BestKey();
        DrainStep(was.Keys, i);
        RestrictTakeOut(was, Behind(was.Keys, i), key);
        txs := txs + [pool[key].transaction];
        Discard(key);
      }
      if max > |was| {
        DrainAll(was.Keys, max);
      }
    }

    /** Drops exactly the transactions that name a blockhash outside the valid ones. */
    method RemoveExpired(valid: set<Address>)
      requires Valid()
      modifies this
      ensures Valid() && sequence == old(sequence)
      ensures pool == Unexpired(old(pool), valid)
      ensures forall k :: k in pool <==> k in old(pool) && old(pool)[k].transaction.recentBlockhash in valid
      ensures forall k :: k in pool ==> pool[k] == old(pool)[k]
    {
      hide DedupExact, CountsExact, IndexExact, KeysTrue, LimitKept, Kept, Unexpired;
      ghost var was := pool;
      var expired := blockhashIndex.Keys - valid;
      KeptStart(pool, blockhashIndex, valid);
      while expired != {}
        invariant Valid() && sequence == old(sequence)
        invariant forall b :: b in expired ==> b !in valid
        invariant Kept(was, pool, valid, expired)
        decreases expired
      {
        var bh :| bh in expired;
        if bh in blockhashIndex {
          DropBucket(bh, was, valid, expired);
        } else {
          NotIndexed(was, pool, blockhashIndex, valid, expired, bh);
        }
        expired := expired - {bh};
      }
      KeptIs(was, pool, valid);
    }

    /** Drops every transaction that names one blockhash. */
    method DropBucket(bh: Address, ghost was: Pool, ghost valid: set<Address>, ghost expired: set<Address>)
      requires Valid() && bh in blockhashIndex && bh !in valid && Kept(was, pool, valid, expired)
      modifies `pool, `dedup, `accountCounts, `blockhashIndex
      ensures Valid() && Kept(was, pool, valid, expired - {bh})
    {
      hide DedupExact, CountsExact, KeysTrue, LimitKept;
      assert IndexAt(pool, blockhashIndex, bh);
      var bucket := blockhashIndex[bh];
      BucketGone(pool, blockhashIndex, bh);
      blockhashIndex := blockhashIndex - {bh};
      while bucket != {}
        invariant Consistent() && |pool| <= maxCapacity && sequence == old(sequence)
        invariant bh !in blockhashIndex && bucket == ByBlockhash(pool, bh)
        invariant forall q :: q != bh ==> IndexAt(pool, blockhashIndex, q)
        invariant forall k :: k in pool ==> k in was && pool[k] == was[k] && MayStay(pool[k], valid, expired)
        invariant forall k :: k in was && was[k].transaction.recentBlockhash != bh ==>
                  MayStay(was[k], valid, expired) ==> k in pool
        decreases bucket
      {
        var key :| key in bucket;
        ghost var before := pool;
        bucket := bucket - {key};
        assert (pool - {key}).Keys == pool.Keys - {key};
        Forget(key);
        OtherBuckets(before, blockhashIndex, bh, key);
        assert ByBlockhash(pool, bh) == ByBlockhash(before, bh) - {key};
      }
      assert forall k :: k in pool && pool[k].transaction.recentBlockhash == bh ==> k in ByBlockhash(pool, bh);
    }
  }

  // ---------------------------------------------------------------------------------
  // Steps of the loops above

  lemma {:induction false} DedupMeaning(pool: Pool, dedup: set<Address>, h: Address)
    requires DedupExact(pool, dedup)
    ensures h in dedup <==> HasHash(pool, h)
  {
  }

  lemma {:induction false} CountMeaning(pool: Pool, counts: map<Address, nat>, p: Address)
    requires CountsExact(pool, counts)
    ensures p in counts ==> counts[p] == |ByPayer(pool, p)|
    ensures p !in counts ==> |ByPayer(pool, p)| == 0
  {
    assert CountAt(pool, counts, p);
  }

  lemma {:induction false} PutInKeys(pool: Pool, sequence: nat, k: Key, e: Entry)
    requires KeysTrue(pool, sequence) && k.sequence == sequence && EntryTrue(k, e)
    ensures k !in pool && KeysTrue(pool[k := e], sequence + 1)
  {
  }

  lemma {:induction false} EntryIs(tx: Tx, sequence: nat)
    requires tx.accountKeys != []
    ensures EntryTrue(Key(tx.price, sequence), Entry(tx, tx.hash, tx.accountKeys[0]))
  {
  }

  lemma {:induction false} PutInLimit(counts: map<Address, nat>, p: Address)
    requires LimitKept(counts) && (p in counts ==> counts[p] < MAX_TXS_PER_ACCOUNT)
    ensures LimitKept(counts[p := (if p in counts then counts[p] else 0) + 1])
  {
  }

  lemma {:induction false} TakeOutBelow(pool: Pool, counts: map<Address, nat>, k: Key, p: Address)
    requires k in pool && |ByPayer(pool, p)| < MAX_TXS_PER_ACCOUNT
    ensures |ByPayer(pool - {k}, p)| < MAX_TXS_PER_ACCOUNT
  {
    assert ByPayer(pool - {k}, p) == ByPayer(pool, p) - {k};
  }

  lemma {:induction false} HashTakeOut(pool: Pool, k: Key, h: Address)
    ensures HasHash(pool - {k}, h) ==> HasHash(pool, h)
  {
    if HasHash(pool - {k}, h) {
      var x :| x in pool - {k} && (pool - {k})[x].txHash == h;
      assert x in pool && pool[x].txHash == h;
    }
  }

  lemma {:induction false} BehindNone(keys: set<Key>)
    ensures Behind(keys, 0) == keys && Front(keys, 0) == []
  {
  }

  /** One more drained. */
  lemma {:induction false} DrainStep(keys: set<Key>, i: nat)
    requires Behind(keys, i) != {}
    ensures Behind(keys, i + 1) == Behind(keys, i) - {First(Behind(keys, i))}
    ensures Front(keys, i + 1) == Front(keys, i) + [First(Behind(keys, i))]
  {
    DrainInTwo(keys, i, 1);
    var rest := Behind(keys, i);
    assert Front(rest, 1) == [First(rest)] + Front(rest - {First(rest)}, 0);
    assert Behind(rest, 1) == Behind(rest - {First(rest)}, 0);
  }

  /** Asking for more than there is drains everything. */
  lemma {:induction false} DrainAll(keys: set<Key>, max: nat)
    requires max >= |keys|
    ensures Front(keys, max) == Front(keys, |keys|) && Behind(keys, max) == Behind(keys, |keys|)
  {
    hide First;
    DrainInTwo(keys, |keys|, max - |keys|);
    FrontTakesAll(keys);
    assert Front({}, max - |keys|) == [] && Behind({}, max - |keys|) == {};
  }

  lemma {:induction false} FrontTakesAll(keys: set<Key>)
    ensures Behind(keys, |keys|) == {}
    decreases |keys|
  {
    if keys == {} {
    } else {
      assert |keys - {First(keys)}| == |keys| - 1;
      FrontTakesAll(keys - {First(keys)});
    }
  }

  ghost predicate MayStay(e: Entry, valid: set<Address>, expired: set<Address>) {
    e.transaction.recentBlockhash in valid || e.transaction.recentBlockhash in expired
  }

  /** `pool` is what `was` keeps while the blockhashes in `expired` are still to be dropped. */
  ghost predicate Kept(was: Pool, pool: Pool, valid: set<Address>, expired: set<Address>) {
    && (forall k :: k in pool ==> k in was && pool[k] == was[k] && MayStay(was[k], valid, expired))
    && (forall k :: k in was && MayStay(was[k], valid, expired) ==> k in pool)
  }

  lemma {:induction false} AllIndexed(pool: Pool, index: map<Address, set<Key>>)
    requires IndexExact(pool, index)
    ensures forall k :: k in pool ==> pool[k].transaction.recentBlockhash in index
  {
    forall k | k in pool ensures pool[k].transaction.recentBlockhash in index {
      assert IndexAt(pool, index, pool[k].transaction.recentBlockhash);
      assert k in ByBlockhash(pool, pool[k].transaction.recentBlockhash);
    }
  }

  lemma {:induction false} KeptStart(pool: Pool, index: map<Address, set<Key>>, valid: set<Address>)
    requires IndexExact(pool, index)
    ensures Kept(pool, pool, valid, index.Keys - valid)
  {
    AllIndexed(pool, index);
  }

  lemma {:induction false} KeptIs(was: Pool, pool: Pool, valid: set<Address>)
    requires Kept(was, pool, valid, {})
    ensures pool == Unexpired(was, valid)
    ensures forall k :: k in pool <==> k in was && was[k].transaction.recentBlockhash in valid
    ensures forall k :: k in pool ==> pool[k] == was[k]
  {
  }

  lemma {:induction false} NotIndexed(was: Pool, pool: Pool, index: map<Address, set<Key>>, valid: set<Address>,
      expired: set<Address>, bh: Address)
    requires IndexExact(pool, index) && bh !in index && Kept(was, pool, valid, expired) && bh !in valid
    ensures Kept(was, pool, valid, expired - {bh})
  {
    AllIndexed(pool, index);
  }

  lemma {:induction false} BucketGone(pool: Pool, index: map<Address, set<Key>>, bh: Address)
    requires IndexExact(pool, index)
    ensures forall q :: q != bh ==> IndexAt(pool, index - {bh}, q)
  {
    forall q | q != bh ensures IndexAt(pool, index - {bh}, q) {
      assert IndexAt(pool, index, q);
    }
  }

  lemma {:induction false} OtherBuckets(pool: Pool, index: map<Address, set<Key>>, bh: Address, k: Key)
    requires k in ByBlockhash(pool, bh)
    requires forall q :: q != bh ==> IndexAt(pool, index, q)
    ensures forall q :: q != bh ==> IndexAt(pool - {k}, index, q)
  {
    forall q | q != bh ensures IndexAt(pool - {k}, index, q) {
      assert IndexAt(pool, index, q);
      assert ByBlockhash(pool - {k}, q) == ByBlockhash(pool, q);
    }
  }

  // ---------------------------------------------------------------------------------
  // What a whole batch of insertions leaves in the pool

  /** Transaction `i` beats `j`: a higher price, or the same price and an earlier arrival. */
  ghost predicate Beats(txs: seq<Tx>, i: nat, j: nat)
    requires i < |txs| && j < |txs|
  {
    txs[i].price > txs[j].price || (txs[i].price == txs[j].price && i < j)
  }

  ghost function FromPayer(txs: seq<Tx>, n: nat, p: Address): (r: set<nat>)
    requires n <= |txs|
  {
    set i: nat | i < n && txs[i].accountKeys != [] && txs[i].accountKeys[0] == p
  }

  /** Well-formed transactions with distinct hashes and no payer over its limit. */
  ghost predicate Acceptable(txs: seq<Tx>) {
    && (forall i :: 0 <= i < |txs| ==> txs[i].accountKeys != [] && txs[i].signatures == txs[i].requiredSignatures)
    && (forall i, j :: 0 <= i < j < |txs| ==> txs[i].hash != txs[j].hash)
    && (forall p :: |FromPayer(txs, |txs|, p)| <= MAX_TXS_PER_ACCOUNT)
  }

  /** `arrival` says which of the first `n` transactions each entry is; sequence numbers
      follow arrival. */
  ghost predicate Arrivals(txs: seq<Tx>, n: nat, pool: Pool, arrival: map<Key, nat>) {
    && n <= |txs| && arrival.Keys == pool.Keys
    && (forall k :: k in pool ==> arrival[k] < n && pool[k].transaction == txs[arrival[k]])
    && (forall a, b :: a in pool && b in pool && a.sequence < b.sequence ==> arrival[a] < arrival[b])
  }

  /** Every transaction that is not in the pool is beaten by every one that is. */
  ghost predicate Selected(txs: seq<Tx>, n: nat, pool: Pool, arrival: map<Key, nat>)
    requires Arrivals(txs, n, pool, arrival)
  {
    forall k, j: nat :: k in pool && j < n && !Held(arrival, j) ==> Beats(txs, arrival[k], j)
  }

  ghost predicate Held(arrival: map<Key, nat>, j: nat) {
    exists k :: k in arrival && arrival[k] == j
  }

  lemma {:induction false} InjectionBound(keys: set<Key>, f: map<Key, nat>, target: set<nat>)
    requires keys <= f.Keys
    requires forall k :: k in keys ==> f[k] in target
    requires forall a, b :: a in keys && b in keys && a != b ==> f[a] != f[b]
    ensures |keys| <= |target|
    decreases |keys|
  {
    if keys == {} {
    } else {
      var k :| k in keys;
      InjectionBound(keys - {k}, f, target - {f[k]});
    }
  }

  lemma {:induction false} ArrivalsDistinct(txs: seq<Tx>, n: nat, pool: Pool, sequence: nat, arrival: map<Key, nat>)
    requires KeysTrue(pool, sequence) && Arrivals(txs, n, pool, arrival)
    ensures forall a, b :: a in pool && b in pool && a != b ==> arrival[a] != arrival[b]
  {
    forall a, b | a in pool && b in pool && a != b ensures arrival[a] != arrival[b] {
      assert a.sequence < b.sequence || b.sequence < a.sequence;
    }
  }

  /** The next transaction is refused for no reason but its price. */
  lemma {:induction false} NextOutcome(txs: seq<Tx>, n: nat, pool: Pool, sequence: nat, arrival: map<Key, nat>,
      capacity: nat)
    requires Acceptable(txs) && n < |txs| && KeysTrue(pool, sequence) && Arrivals(txs, n, pool, arrival) && capacity > 0
    ensures Outcome(pool, capacity, txs[n]).Ok? <==>
              !(|pool| >= capacity && pool.Keys != {} && txs[n].price <= Last(pool.Keys).priority)
  {
    hide Last;
    var p := txs[n].accountKeys[0];
    NewHash(txs, n, pool, sequence, arrival);
    ArrivalsDistinct(txs, n, pool, sequence, arrival);
    InjectionBound(ByPayer(pool, p), arrival, FromPayer(txs, n, p));
    NextOfPayer(txs, n, p);
  }

  lemma {:induction false} NewHash(txs: seq<Tx>, n: nat, pool: Pool, sequence: nat, arrival: map<Key, nat>)
    requires Acceptable(txs) && n < |txs| && KeysTrue(pool, sequence) && Arrivals(txs, n, pool, arrival)
    ensures !HasHash(pool, txs[n].hash)
  {
    forall k | k in pool ensures pool[k].txHash != txs[n].hash {
      assert EntryTrue(k, pool[k]);
      assert txs[arrival[k]].hash != txs[n].hash;
    }
  }

  lemma {:induction false} NextOfPayer(txs: seq<Tx>, n: nat, p: Address)
    requires Acceptable(txs) && n < |txs| && p == txs[n].accountKeys[0]
    ensures |FromPayer(txs, n, p)| < MAX_TXS_PER_ACCOUNT
  {
    var before, all := FromPayer(txs, n, p), FromPayer(txs, |txs|, p);
    assert before + {n} <= all && n !in before;
    Subset(before + {n}, all);
  }

  lemma {:induction false} Subset(a: set<nat>, b: set<nat>)
    requires a <= b
    ensures |a| <= |b|
  {
    assert b == a + (b - a);
  }

  lemma {:induction false} HeldAfterAdding(arrival: map<Key, nat>, key: Key, n: nat, j: nat)
    requires key !in arrival
    ensures Held(arrival[key := n], j) <==> j == n || Held(arrival, j)
  {
    var more := arrival[key := n];
    if Held(arrival, j) {
      var k :| k in arrival && arrival[k] == j;
      assert k in more && more[k] == j;
    }
    if j == n { assert key in more && more[key] == j; }
    if Held(more, j) {
      var k :| k in more && more[k] == j;
      if k != key { assert k in arrival && arrival[k] == j; }
    }
  }

  lemma {:induction false} HeldAfterRemoving(arrival: map<Key, nat>, key: Key, j: nat)
    requires key in arrival
    ensures Held(arrival, j) ==> j == arrival[key] || Held(arrival - {key}, j)
  {
    if Held(arrival, j) {
      var k :| k in arrival && arrival[k] == j;
      assert k == key || k in arrival - {key};
    }
  }

  /** A refused transaction is beaten by everything in the full pool. */
  lemma {:induction false} RefusedIsBeaten(txs: seq<Tx>, n: nat, pool: Pool, sequence: nat, arrival: map<Key, nat>)
    requires n < |txs| && KeysTrue(pool, sequence) && Arrivals(txs, n, pool, arrival) && Selected(txs, n, pool, arrival)
    requires pool.Keys != {} && txs[n].price <= Last(pool.Keys).priority
    ensures Arrivals(txs, n + 1, pool, arrival) && Selected(txs, n + 1, pool, arrival)
  {
    assert IsLast(pool.Keys, Last(pool.Keys));
    hide Last;
    forall k, j: nat | k in pool && j < n + 1 && !Held(arrival, j) ensures Beats(txs, arrival[k], j) {
      assert EntryTrue(k, pool[k]);
    }
  }

  /** The worst entry is beaten by the rest of the pool and by the newcomer. */
  lemma {:induction false} EvictedIsBeaten(txs: seq<Tx>, n: nat, pool: Pool, sequence: nat, arrival: map<Key, nat>,
      worst: Key)
    requires n < |txs| && KeysTrue(pool, sequence) && Arrivals(txs, n, pool, arrival) && Selected(txs, n, pool, arrival)
    requires IsLast(pool.Keys, worst) && txs[n].price > worst.priority
    ensures Arrivals(txs, n, pool - {worst}, arrival - {worst}) && Selected(txs, n, pool - {worst}, arrival - {worst})
    ensures forall j: nat :: j < n && !Held(arrival - {worst}, j) ==> txs[n].price > txs[j].price
  {
    assert EntryTrue(worst, pool[worst]);
    var rest := arrival - {worst};
    forall j: nat ensures Held(arrival, j) ==> j == arrival[worst] || Held(rest, j) {
      HeldAfterRemoving(arrival, worst, j);
    }
    forall k, j: nat | k in pool - {worst} && j < n && !Held(rest, j) ensures Beats(txs, rest[k], j) {
      assert EntryTrue(k, pool[k]) && Before(k, worst);
    }
  }

  lemma {:induction false} AdmittedIsSelected(txs: seq<Tx>, n: nat, pool: Pool, sequence: nat, arrival: map<Key, nat>,
      key: Key, e: Entry)
    requires n < |txs| && KeysTrue(pool, sequence) && Arrivals(txs, n, pool, arrival) && Selected(txs, n, pool, arrival)
    requires key.sequence >= sequence && e.transaction == txs[n]
    requires forall j: nat :: j < n && !Held(arrival, j) ==> txs[n].price > txs[j].price
    ensures Arrivals(txs, n + 1, pool[key := e], arrival[key := n])
    ensures Selected(txs, n + 1, pool[key := e], arrival[key := n])
  {
    var more := arrival[key := n];
    forall k, j: nat | k in pool[key := e] && j < n + 1 && !Held(more, j) ensures Beats(txs, more[k], j) {
      HeldAfterAdding(arrival, key, n, j);
    }
  }

  /** Offering any acceptable transactions to an empty pool leaves the best of them: as many
      as fit, each beating every one left out. */
  method OfferAll(mempool: Mempool, txs: seq<Tx>) returns (ghost arrival: map<Key, nat>)
    requires mempool.Valid() && mempool.pool == map[] && Acceptable(txs)
    modifies mempool
    ensures mempool.Valid() && Arrivals(txs, |txs|, mempool.pool, arrival)
    ensures |mempool.pool| == if |txs| <= mempool.maxCapacity then |txs| else mempool.maxCapacity
    ensures Selected(txs, |txs|, mempool.pool, arrival)
    ensures |txs| <= mempool.maxCapacity ==> forall j: nat :: j < |txs| ==> Held(arrival, j)
  {
    hide Acceptable, Arrivals, Selected, Last, IsLast, Outcome, Held, Added, MakeRoom, DedupExact, CountsExact;
    hide IndexExact, KeysTrue, LimitKept;
    arrival := map[];
    StartOffers(txs, mempool.pool, arrival);
    for n := 0 to |txs|
      invariant mempool.Valid()
      invariant Arrivals(txs, n, mempool.pool, arrival) && Selected(txs, n, mempool.pool, arrival)
      invariant |mempool.pool| == if n <= mempool.maxCapacity then n else mempool.maxCapacity
      invariant n <= mempool.maxCapacity ==> forall j: nat :: j < n ==> Held(arrival, j)
    {
      ghost var was, sequence := mempool.pool, mempool.sequence;
      NextOutcome(txs, n, was, sequence, arrival, mempool.maxCapacity);
      OfferedWell(txs, n);
      var r := mempool.Insert(txs[n]);
      if r.Err? {
        RefusedIsBeaten(txs, n, was, sequence, arrival);
      } else {
        arrival := OfferStep(txs, n, was, sequence, arrival, mempool.maxCapacity);
      }
    }
  }

  /** One accepted transaction. */
  lemma {:induction false} OfferStep(txs: seq<Tx>, n: nat, was: Pool, sequence: nat, arrival: map<Key, nat>,
      capacity: nat)
    returns (next: map<Key, nat>)
    requires n < |txs| && KeysTrue(was, sequence) && Arrivals(txs, n, was, arrival) && Selected(txs, n, was, arrival)
    requires capacity > 0
    requires |was| < capacity ==> forall j: nat :: j < n ==> Held(arrival, j)
    requires |was| >= capacity && was.Keys != {} ==> txs[n].price > Last(was.Keys).priority
    requires |txs[n].accountKeys| > 0
    ensures var pool := Added(MakeRoom(was, capacity), sequence, txs[n]);
            Arrivals(txs, n + 1, pool, next) && Selected(txs, n + 1, pool, next)
    ensures |was| < capacity ==> forall j: nat :: j < n + 1 ==> Held(next, j)
  {
    hide Arrivals, Selected, Last, Held, KeysTrue, Beats;
    var key, entry := Key(txs[n].price, sequence), Entry(txs[n], txs[n].hash, txs[n].accountKeys[0]);
    var room, held := was, arrival;
    if |was| >= capacity {
      assert was.Keys != {};
      var worst := Last(was.Keys);
      EvictedIsBeaten(txs, n, was, sequence, arrival, worst);
      KeysTakeOut(was, sequence, worst);
      room, held := was - {worst}, arrival - {worst};
    }
    AdmittedIsSelected(txs, n, room, sequence, held, key, entry);
    FreshKey(room, sequence, txs, n, held, key);
    next := held[key := n];
    forall j: nat ensures Held(next, j) <==> j == n || Held(held, j) {
      HeldAfterAdding(held, key, n, j);
    }
  }

  lemma {:induction false} OfferedWell(txs: seq<Tx>, n: nat)
    requires Acceptable(txs) && n < |txs|
    ensures |txs[n].accountKeys| > 0
  {
  }

  lemma {:induction false} StartOffers(txs: seq<Tx>, pool: Pool, arrival: map<Key, nat>)
    requires pool == map[] && arrival == map[]
    ensures Arrivals(txs, 0, pool, arrival) && Selected(txs, 0, pool, arrival)
  {
  }

  lemma {:induction false} KeysTakeOut(pool: Pool, sequence: nat, k: Key)
    requires KeysTrue(pool, sequence)
    ensures KeysTrue(pool - {k}, sequence)
  {
  }

  lemma {:induction false} FreshKey(pool: Pool, sequence: nat, txs: seq<Tx>, n: nat, arrival: map<Key, nat>, key: Key)
    requires KeysTrue(pool, sequence) && key.sequence == sequence && Arrivals(txs, n, pool, arrival)
    ensures key !in arrival
  {
  }
}
