/** The mempool's contents and its three secondary indexes (mempool/src/pool.rs): the order of
    its keys, what the indexes record, and how both change one entry at a time. */
module PoolIndexes {
  import opened Crypto

  /** A transaction as the pool sees it; its hash and its price are computed elsewhere. */
  datatype Tx = Tx(accountKeys: seq<Address>, requiredSignatures: U8, signatures: nat, recentBlockhash: Address,
      hash: Address, price: U64)

  datatype Key = Key(priority: nat, sequence: nat)

  datatype Entry = Entry(transaction: Tx, txHash: Address, payer: Address)

  type Pool = map<Key, Entry>

  // ---------------------------------------------------------------------------------
  // The order of the keys

  /** Highest price first, then first come first served. */
  predicate Before(a: Key, b: Key) {
    a.priority > b.priority || (a.priority == b.priority && a.sequence < b.sequence)
  }

  predicate IsFirst(keys: set<Key>, k: Key) {
    k in keys && forall x :: x in keys ==> x == k || Before(k, x)
  }

  predicate IsLast(keys: set<Key>, k: Key) {
    k in keys && forall x :: x in keys ==> x == k || Before(x, k)
  }

  ghost function First(keys: set<Key>): (k: Key)
    requires keys != {}
    ensures IsFirst(keys, k)
  {
    var k :| k in keys;
    if keys == {k} then k else
      var m := First(keys - {k});
      assert forall x :: x in keys ==> x == k || x in keys - {k};
      if Before(k, m) then k else m
  }

  ghost function Last(keys: set<Key>): (k: Key)
    requires keys != {}
    ensures IsLast(keys, k)
  {
    var k :| k in keys;
    if keys == {k} then k else
      var m := Last(keys - {k});
      assert forall x :: x in keys ==> x == k || x in keys - {k};
      if Before(m, k) then k else m
  }

  lemma {:induction false} FirstUnique(keys: set<Key>, k: Key)
    requires IsFirst(keys, k)
    ensures k == First(keys)
  {
  }

  lemma {:induction false} LastUnique(keys: set<Key>, k: Key)
    requires IsLast(keys, k)
    ensures k == Last(keys)
  {
  }

  // ---------------------------------------------------------------------------------
  // The indexes

  ghost function ByPayer(pool: Pool, p: Address): (r: set<Key>) {
    set k | k in pool && pool[k].payer == p
  }

  ghost function ByBlockhash(pool: Pool, bh: Address): (r: set<Key>) {
    set k | k in pool && pool[k].transaction.recentBlockhash == bh
  }

  ghost predicate CountAt(pool: Pool, counts: map<Address, nat>, p: Address) {
    && (p in counts <==> ByPayer(pool, p) != {})
    && (p in counts ==> counts[p] == |ByPayer(pool, p)|)
  }

  ghost predicate CountsExact(pool: Pool, counts: map<Address, nat>) {
    forall p :: CountAt(pool, counts, p)
  }

  ghost predicate IndexAt(pool: Pool, index: map<Address, set<Key>>, bh: Address) {
    && (bh in index <==> ByBlockhash(pool, bh) != {})
    && (bh in index ==> index[bh] == ByBlockhash(pool, bh))
  }

  ghost predicate IndexExact(pool: Pool, index: map<Address, set<Key>>) {
    forall bh :: IndexAt(pool, index, bh)
  }

  /** The recorded hashes are those of the pool, each belonging to one entry. */
  ghost predicate DedupExact(pool: Pool, dedup: set<Address>) {
    && (forall h :: h in dedup <==> HasHash(pool, h))
    && (forall a, b :: a in pool && b in pool && pool[a].txHash == pool[b].txHash ==> a == b)
  }

  ghost predicate HasHash(pool: Pool, h: Address) {
    exists k :: k in pool && pool[k].txHash == h
  }

  /** Keys carry the price of their transaction and a sequence number already handed out,
      each number once. */
  ghost predicate KeysTrue(pool: Pool, sequence: nat) {
    && (forall k :: k in pool ==> EntryTrue(k, pool[k]) && k.sequence < sequence)
    && (forall a, b :: a in pool && b in pool && a.sequence == b.sequence ==> a == b)
  }

  ghost predicate EntryTrue(k: Key, e: Entry) {
    && e.txHash == e.transaction.hash && e.transaction.accountKeys != [] && e.payer == e.transaction.accountKeys[0]
    && k.priority == e.transaction.price
  }

  // ---------------------------------------------------------------------------------
  // Taking an entry out

  function CountDown(counts: map<Address, nat>, p: Address): (r: map<Address, nat>)
    requires p in counts && counts[p] > 0
  {
    if counts[p] == 1 then counts - {p} else counts[p := counts[p] - 1]
  }

  function Unindex(index: map<Address, set<Key>>, bh: Address, k: Key): (r: map<Address, set<Key>>) {
    if bh !in index then index
    else if index[bh] - {k} == {} then index - {bh}
    else index[bh := index[bh] - {k}]
  }

  lemma {:induction false} CountsPresent(pool: Pool, counts: map<Address, nat>, k: Key)
    requires CountsExact(pool, counts) && k in pool
    ensures pool[k].payer in counts && counts[pool[k].payer] > 0
  {
    assert CountAt(pool, counts, pool[k].payer);
    assert k in ByPayer(pool, pool[k].payer);
  }

  lemma {:induction false} TakeOutCounts(pool: Pool, counts: map<Address, nat>, k: Key)
    requires CountsExact(pool, counts) && k in pool
    ensures pool[k].payer in counts && counts[pool[k].payer] > 0
    ensures CountsExact(pool - {k}, CountDown(counts, pool[k].payer))
  {
    var p := pool[k].payer;
    CountsPresent(pool, counts, k);
    var after := CountDown(counts, p);
    forall q ensures CountAt(pool - {k}, after, q) {
      assert CountAt(pool, counts, q);
      if q == p {
        assert k in ByPayer(pool, q) && ByPayer(pool - {k}, q) == ByPayer(pool, q) - {k};
        assert |ByPayer(pool - {k}, q)| == |ByPayer(pool, q)| - 1;
      } else {
        assert ByPayer(pool - {k}, q) == ByPayer(pool, q);
      }
    }
  }

  lemma {:induction false} TakeOutIndex(pool: Pool, index: map<Address, set<Key>>, k: Key)
    requires IndexExact(pool, index) && k in pool
    ensures IndexExact(pool - {k}, Unindex(index, pool[k].transaction.recentBlockhash, k))
  {
    var bh := pool[k].transaction.recentBlockhash;
    forall q ensures IndexAt(pool - {k}, Unindex(index, bh, k), q) {
      assert IndexAt(pool, index, q);
      if q == bh {
        assert ByBlockhash(pool - {k}, q) == ByBlockhash(pool, q) - {k};
      } else {
        assert ByBlockhash(pool - {k}, q) == ByBlockhash(pool, q);
      }
    }
  }

  lemma {:induction false} TakeOutDedup(pool: Pool, dedup: set<Address>, k: Key)
    requires DedupExact(pool, dedup) && k in pool
    ensures DedupExact(pool - {k}, dedup - {pool[k].txHash})
  {
    var rest := pool - {k};
    forall h ensures h in dedup - {pool[k].txHash} <==> HasHash(rest, h) {
      if HasHash(pool, h) && h != pool[k].txHash {
        var x :| x in pool && pool[x].txHash == h;
        assert x in rest && rest[x].txHash == h;
      }
      if HasHash(rest, h) {
        var x :| x in rest && rest[x].txHash == h;
        assert x in pool && pool[x].txHash == h;
      }
    }
  }

  // ---------------------------------------------------------------------------------
  // Putting an entry in

  lemma {:induction false} PutInCounts(pool: Pool, counts: map<Address, nat>, k: Key, e: Entry)
    requires CountsExact(pool, counts) && k !in pool
    ensures CountsExact(pool[k := e], counts[e.payer := (if e.payer in counts then counts[e.payer] else 0) + 1])
  {
    var p := e.payer;
    var after := counts[p := (if p in counts then counts[p] else 0) + 1];
    var more := pool[k := e];
    forall q ensures CountAt(more, after, q) {
      assert CountAt(pool, counts, q);
      if q == p {
        assert ByPayer(more, q) == ByPayer(pool, q) + {k};
      } else {
        assert ByPayer(more, q) == ByPayer(pool, q);
      }
    }
  }

  lemma {:induction false} PutInIndex(pool: Pool, index: map<Address, set<Key>>, k: Key, e: Entry)
    requires IndexExact(pool, index) && k !in pool
    ensures var bh := e.transaction.recentBlockhash;
            IndexExact(pool[k := e], index[bh := (if bh in index then index[bh] else {}) + {k}])
  {
    var bh := e.transaction.recentBlockhash;
    var after := index[bh := (if bh in index then index[bh] else {}) + {k}];
    var more := pool[k := e];
    forall q ensures IndexAt(more, after, q) {
      assert IndexAt(pool, index, q);
      if q == bh {
        assert ByBlockhash(more, q) == ByBlockhash(pool, q) + {k};
      } else {
        assert ByBlockhash(more, q) == ByBlockhash(pool, q);
      }
    }
  }

  lemma {:induction false} PutInDedup(pool: Pool, dedup: set<Address>, k: Key, e: Entry)
    requires DedupExact(pool, dedup) && k !in pool && e.txHash !in dedup
    ensures DedupExact(pool[k := e], dedup + {e.txHash})
  {
    var more := pool[k := e];
    forall h ensures h in dedup + {e.txHash} <==> HasHash(more, h) {
      if HasHash(pool, h) {
        var x :| x in pool && pool[x].txHash == h;
        assert x in more && more[x].txHash == h;
      }
      assert k in more && more[k].txHash == e.txHash;
      if HasHash(more, h) {
        var x :| x in more && more[x].txHash == h;
        if x != k { assert x in pool && pool[x].txHash == h; }
      }
    }
    forall a, b | a in more && b in more && more[a].txHash == more[b].txHash ensures a == b {
      if a in pool { assert HasHash(pool, pool[a].txHash); }
      if b in pool { assert HasHash(pool, pool[b].txHash); }
    }
  }

  // ---------------------------------------------------------------------------------
  // The counts agree

  ghost function CountSum(counts: map<Address, nat>, ps: set<Address>): (n: nat)
    requires ps <= counts.Keys
  {
    if ps == {} then 0 else
      var p :| p in ps;
      counts[p] + CountSum(counts, ps - {p})
  }

  ghost function PaidBy(pool: Pool, ps: set<Address>): (r: set<Key>) {
    set k | k in pool && pool[k].payer in ps
  }

  lemma {:induction false} CountSumIs(pool: Pool, counts: map<Address, nat>, ps: set<Address>)
    requires CountsExact(pool, counts) && ps <= counts.Keys
    ensures CountSum(counts, ps) == |PaidBy(pool, ps)|
    decreases |ps|
  {
    if ps == {} {
      assert PaidBy(pool, ps) == {};
    } else {
      var p :| p in ps && CountSum(counts, ps) == counts[p] + CountSum(counts, ps - {p});
      CountSumIs(pool, counts, ps - {p});
      assert CountAt(pool, counts, p);
      assert PaidBy(pool, ps) == PaidBy(pool, ps - {p}) + ByPayer(pool, p);
      assert PaidBy(pool, ps - {p}) !! ByPayer(pool, p);
    }
  }

  ghost function BucketSum(index: map<Address, set<Key>>, bs: set<Address>): (n: nat)
    requires bs <= index.Keys
  {
    if bs == {} then 0 else
      var b :| b in bs;
      |index[b]| + BucketSum(index, bs - {b})
  }

  ghost function Naming(pool: Pool, bs: set<Address>): (r: set<Key>) {
    set k | k in pool && pool[k].transaction.recentBlockhash in bs
  }

  lemma {:induction false} BucketSumIs(pool: Pool, index: map<Address, set<Key>>, bs: set<Address>)
    requires IndexExact(pool, index) && bs <= index.Keys
    ensures BucketSum(index, bs) == |Naming(pool, bs)|
    decreases |bs|
  {
    if bs == {} {
      assert Naming(pool, bs) == {};
    } else {
      var b :| b in bs && BucketSum(index, bs) == |index[b]| + BucketSum(index, bs - {b});
      BucketSumIs(pool, index, bs - {b});
      assert IndexAt(pool, index, b);
      assert Naming(pool, bs) == Naming(pool, bs - {b}) + ByBlockhash(pool, b);
      assert Naming(pool, bs - {b}) !! ByBlockhash(pool, b);
    }
  }

  lemma {:induction false} DistinctHashes(pool: Pool, dedup: set<Address>)
    requires DedupExact(pool, dedup)
    ensures |pool| == |dedup|
    decreases |pool|
  {
    if dedup == {} {
      assert pool.Keys == {} by {
        forall k | k in pool ensures false { assert HasHash(pool, pool[k].txHash); }
      }
    } else {
      var h :| h in dedup;
      assert HasHash(pool, h);
      var k :| k in pool && pool[k].txHash == h;
      TakeOutDedup(pool, dedup, k);
      assert (pool - {k}).Keys == pool.Keys - {k};
      DistinctHashes(pool - {k}, dedup - {h});
    }
  }

  /** The counts the source's own check compares are all equal. */
  lemma {:induction false} SizesAgree(pool: Pool, dedup: set<Address>, counts: map<Address, nat>,
      index: map<Address, set<Key>>)
    requires DedupExact(pool, dedup) && CountsExact(pool, counts) && IndexExact(pool, index)
    ensures |pool| == |dedup| == CountSum(counts, counts.Keys) == BucketSum(index, index.Keys)
  {
    DistinctHashes(pool, dedup);
    CountSumIs(pool, counts, counts.Keys);
    BucketSumIs(pool, index, index.Keys);
    forall k | k in pool ensures pool[k].payer in counts && pool[k].transaction.recentBlockhash in index {
      CountsPresent(pool, counts, k);
      assert IndexAt(pool, index, pool[k].transaction.recentBlockhash);
      assert k in ByBlockhash(pool, pool[k].transaction.recentBlockhash);
    }
    assert PaidBy(pool, counts.Keys) == pool.Keys && Naming(pool, index.Keys) == pool.Keys;
  }

  // ---------------------------------------------------------------------------------
  // Draining

  /** The `n` first keys in order, and the keys left behind. */
  ghost function Front(keys: set<Key>, n: nat): (r: seq<Key>)
    decreases n
  {
    if n == 0 || keys == {} then [] else [First(keys)] + Front(keys - {First(keys)}, n - 1)
  }

  ghost function Behind(keys: set<Key>, n: nat): (r: set<Key>)
    decreases n
  {
    if n == 0 || keys == {} then keys else Behind(keys - {First(keys)}, n - 1)
  }

  /** A list of distinct keys in order, none of which comes after a key left behind. */
  ghost predicate TopOf(keys: set<Key>, r: seq<Key>) {
    && (forall i :: 0 <= i < |r| ==> r[i] in keys)
    && (forall i, j :: 0 <= i < j < |r| ==> Before(r[i], r[j]))
    && (forall i, k :: 0 <= i < |r| && k in keys && k !in r ==> Before(r[i], k))
  }

  lemma {:induction false} FrontMeaning(keys: set<Key>, n: nat)
    ensures TopOf(keys, Front(keys, n))
    ensures |Front(keys, n)| == if n <= |keys| then n else |keys|
    ensures Behind(keys, n) == keys - Listed(Front(keys, n))
    decreases n
  {
    hide First, Before, Listed, TopOf;
    if n == 0 || keys == {} {
      TopOfNone(keys);
      ListedNone();
    } else {
      var k := First(keys);
      var rest := keys - {k};
      assert |rest| == |keys| - 1;
      FrontMeaning(rest, n - 1);
      FrontStep(keys, k, Front(rest, n - 1));
      ListedStep(k, Front(rest, n - 1));
    }
  }

  lemma {:induction false} TopOfNone(keys: set<Key>)
    ensures TopOf(keys, [])
  {
  }

  ghost function Listed(r: seq<Key>): (s: set<Key>) {
    set i | 0 <= i < |r| :: r[i]
  }

  lemma {:induction false} ListedNone()
    ensures Listed([]) == {}
  {
  }

  lemma {:induction false} ListedStep(k: Key, r: seq<Key>)
    ensures Listed([k] + r) == {k} + Listed(r)
  {
    var more := [k] + r;
    forall i | 0 <= i < |r| ensures r[i] in Listed(more) { assert more[i + 1] == r[i]; }
    assert more[0] in Listed(more);
    forall i | 0 <= i < |more| ensures more[i] in {k} + Listed(r) {
      if i > 0 { assert more[i] == r[i - 1]; }
    }
  }

  lemma {:induction false} FrontStep(keys: set<Key>, k: Key, r: seq<Key>)
    requires IsFirst(keys, k) && TopOf(keys - {k}, r)
    ensures TopOf(keys, [k] + r)
  {
    var more := [k] + r;
    forall i | 0 <= i < |more| ensures more[i] in keys && (i > 0 ==> more[i] == r[i - 1] && more[i] != k) { }
    forall i, j | 0 <= i < j < |more| ensures Before(more[i], more[j]) {
      if i > 0 { assert Before(r[i - 1], r[j - 1]); }
    }
    assert forall j :: 0 <= j < |r| ==> more[j + 1] == r[j];
    assert more[0] == k;
    forall i, x | 0 <= i < |more| && x in keys && x !in more ensures Before(more[i], x) {
      assert x != k && x !in r;
      assert x in keys - {k};
    }
  }

  /** Draining twice is draining once. */
  lemma {:induction false} DrainInTwo(keys: set<Key>, a: nat, b: nat)
    ensures Front(keys, a + b) == Front(keys, a) + Front(Behind(keys, a), b)
    ensures Behind(keys, a + b) == Behind(Behind(keys, a), b)
    decreases a
  {
    hide First, Before;
    if a == 0 || keys == {} {
      assert Front(keys, a) == [] && Behind(keys, a) == keys;
    } else {
      DrainInTwo(keys - {First(keys)}, a - 1, b);
    }
  }
}
