/** The incremental state tree (consensus/src/state_tree.rs): a sorted leaf map, a flat node
    array, a set of stale internal nodes, a structural-change flag and a rank index, kept
    consistent with one thing, the map of accounts. */
module StateTrees {
  import opened Arithmetic
  import opened Crypto
  import opened Ordered
  import opened Merkle
  import Transactions

  /** The bytes of "state_leaf". */
  const STATE_LEAF: seq<Token> :=
    [Octet(0x73), Octet(0x74), Octet(0x61), Octet(0x74), Octet(0x65), Octet(0x5f), Octet(0x6c), Octet(0x65),
        Octet(0x61), Octet(0x66)]

  function AccountLeaf(address: Address, account: Account): (r: Digest) {
    Hashed(STATE_LEAF + AccountTokens(address, account))
  }

  lemma {:induction false} AccountLeafInjective(a: Address, x: Account, b: Address, y: Account)
    ensures AccountLeaf(a, x) == AccountLeaf(b, y) <==> a == b && x == y
    ensures AccountLeaf(a, x) != ZeroDigest
  {
    hide AccountTokens;
    if AccountLeaf(a, x) == AccountLeaf(b, y) {
      SplitEqual(STATE_LEAF, AccountTokens(a, x), STATE_LEAF, AccountTokens(b, y));
      AccountTokensInjective(a, x, b, y);
    }
  }

  function LeavesOf(accounts: map<Address, Account>): (r: map<Address, Digest>) {
    map a | a in accounts :: AccountLeaf(a, accounts[a])
  }

  lemma {:induction false} LeavesOfAdd(accounts: map<Address, Account>, a: Address, x: Account)
    ensures LeavesOf(accounts[a := x]) == LeavesOf(accounts)[a := AccountLeaf(a, x)]
  {
    hide AccountLeaf;
  }

  lemma {:induction false} EmptyLeaves()
    ensures LeavesOf(map[]) == map[]
  {
  }

  lemma {:induction false} LeavesOfRemove(accounts: map<Address, Account>, a: Address)
    ensures LeavesOf(accounts - {a}) == LeavesOf(accounts) - {a}
  {
    hide AccountLeaf;
  }

  /** The leaf digests in address order. */
  function LeafList(leaves: map<Address, Digest>): (r: seq<Digest>)
    ensures |r| == |leaves|
    ensures forall i :: 0 <= i < |r| ==>
              SortedKeys(leaves.Keys)[i] in leaves && r[i] == leaves[SortedKeys(leaves.Keys)[i]]
  {
    var keys := SortedKeys(leaves.Keys);
    assert forall i :: 0 <= i < |keys| ==> keys[i] in keys;
    seq(|keys|, i requires 0 <= i < |keys| => leaves[keys[i]])
  }

  /** The root the tree must report for a map of accounts. */
  function StateRoot(accounts: map<Address, Account>): (r: Digest) {
    MerkleRoot(LeafList(LeavesOf(accounts)))
  }

  function Ranks(keys: set<Address>): (r: map<Address, nat>) {
    map k | k in keys :: RankOf(keys, k)
  }

  // ---------------------------------------------------------------------------------
  // Proofs about accounts

  datatype StateProof = StateProof(siblings: seq<Digest>, path: seq<bool>, leafIndex: nat, totalLeaves: nat)

  ghost predicate Verifies(root: Digest, address: Address, account: Account, proof: StateProof) {
    Climb(HashLeaf(AccountLeaf(address, account)), proof.siblings, proof.path,
        Shorter(|proof.siblings|, |proof.path|)) == root
  }

  method VerifyProof(root: Digest, address: Address, account: Account, proof: StateProof) returns (ok: bool)
    ensures ok <==> Verifies(root, address, account, proof)
  {
    ok := VerifyPath(root, AccountLeaf(address, account), proof.siblings, proof.path);
  }

  /** The only position that holds an account's leaf is the rank of its address. */
  lemma {:induction false} LeafPosition(accounts: map<Address, Account>, address: Address, account: Account, k: nat)
    ensures LeafAt(LeafList(LeavesOf(accounts)), k) == AccountLeaf(address, account) <==>
            address in accounts && accounts[address] == account && k == RankOf(accounts.Keys, address)
  {
    hide AccountLeaf, SortedKeys, RankOf;
    var leaves, list := LeavesOf(accounts), LeafList(LeavesOf(accounts));
    assert leaves.Keys == accounts.Keys;
    var keys := SortedKeys(accounts.Keys);
    AccountLeafInjective(address, account, address, account);
    if k < |list| {
      assert list[k] == AccountLeaf(keys[k], accounts[keys[k]]);
      AccountLeafInjective(keys[k], accounts[keys[k]], address, account);
      if address in accounts && keys[k] == address {
        var i := RankOf(accounts.Keys, address);
        assert keys[i] == keys[k];
      }
    }
  }

  /** A climb from a leaf never ends at the root of no leaves. */
  lemma {:induction false} ClimbIsHashed(leaf: Digest, siblings: seq<Digest>, path: seq<bool>, n: nat)
    requires n <= |siblings| && n <= |path|
    ensures Climb(HashLeaf(leaf), siblings, path, n) != ZeroDigest
  {
    if n == 0 {
      assert Climb(HashLeaf(leaf), siblings, path, 0) == HashLeaf(leaf);
    }
  }

  /** A state proof is accepted against the root exactly when the account is in the state
      with that value and the proof is the honest one of its position, whatever its length;
      so nothing is accepted against the empty state. */
  lemma {:induction false} ProofAcceptedIff(accounts: map<Address, Account>, address: Address, account: Account,
      proof: StateProof)
    ensures |LeafList(LeavesOf(accounts))| == |accounts|
    ensures Verifies(StateRoot(accounts), address, account, proof) <==>
            && address in accounts && accounts[address] == account
            && Proves(LeafList(LeavesOf(accounts)), RankOf(accounts.Keys, address), proof.siblings, proof.path)
  {
    LeavesSize(accounts);
    if |accounts| == 0 {
      ClimbIsHashed(AccountLeaf(address, account), proof.siblings, proof.path, Shorter(|proof.siblings|, |proof.path|));
      assert accounts.Keys == {};
    } else {
      HeldAcceptedIff(accounts, address, account, proof);
    }
  }

  lemma {:induction false} HeldAcceptedIff(accounts: map<Address, Account>, address: Address, account: Account,
      proof: StateProof)
    requires |accounts| > 0
    ensures |LeafList(LeavesOf(accounts))| == |accounts|
    ensures Verifies(StateRoot(accounts), address, account, proof) <==>
            && address in accounts && accounts[address] == account
            && Proves(LeafList(LeavesOf(accounts)), RankOf(accounts.Keys, address), proof.siblings, proof.path)
  {
    hide Proves, AccountLeaf, RankOf, SortedKeys, HashLeaf, Climb;
    LeavesSize(accounts);
    var list, leaf := LeafList(LeavesOf(accounts)), AccountLeaf(address, account);
    AcceptedIffHonest(list, leaf, proof.siblings, proof.path);
    forall k
      ensures LeafAt(list, k) == leaf <==>
              address in accounts && accounts[address] == account && k == RankOf(accounts.Keys, address)
    {
      LeafPosition(accounts, address, account, k);
    }
  }

  lemma {:induction false} LeavesSize(accounts: map<Address, Account>)
    ensures |LeavesOf(accounts)| == |accounts|
  {
    assert LeavesOf(accounts).Keys == accounts.Keys;
  }

  // ---------------------------------------------------------------------------------
  // The incremental invariant

  /** Stale nodes are internal, and every ancestor of a stale node is stale. */
  ghost predicate StaleClosed(stale: set<nat>, capacity: nat) {
    forall i :: i in stale ==> i < capacity - 1 && (i > 0 ==> (i - 1) / 2 in stale)
  }

  /** The array stores the current leaves, up to the stale nodes, and the index their ranks. */
  ghost predicate Incremental(leaves: map<Address, Digest>, nodes: seq<Digest>, capacity: nat, dirty: set<nat>,
      index: map<Address, nat>)
  {
    && |leaves| > 0
    && capacity == Pow2(Height(|leaves|))
    && FlatTree(nodes, Layer(LeafList(leaves)), Height(|leaves|), dirty)
    && StaleClosed(dirty, capacity)
    && index == Ranks(leaves.Keys)
  }

  function AncestorsOf(i: nat): (r: set<nat>) {
    if i == 0 then {} else {(i - 1) / 2} + AncestorsOf((i - 1) / 2)
  }

  lemma {:induction false} AncestorsClosed(i: nat, capacity: nat)
    requires i < 2 * capacity - 1
    ensures StaleClosed(AncestorsOf(i), capacity)
  {
    if i == 0 {
    } else {
      AncestorsClosed((i - 1) / 2, capacity);
    }
  }

  lemma {:induction false} LeafListUpdate(leaves: map<Address, Digest>, a: Address, leaf: Digest)
    requires a in leaves
    ensures |leaves[a := leaf]| == |leaves|
    ensures LeafList(leaves[a := leaf]) == LeafList(leaves)[RankOf(leaves.Keys, a) := leaf]
  {
    hide SortedKeys, RankOf;
    var changed, k := leaves[a := leaf], RankOf(leaves.Keys, a);
    assert changed.Keys == leaves.Keys;
    var keys := SortedKeys(leaves.Keys);
    forall i | 0 <= i < |keys| ensures LeafList(changed)[i] == LeafList(leaves)[k := leaf][i] {
      assert i != k ==> keys[i] != keys[k];
    }
  }

  /** Writing one leaf and marking its ancestors keeps the array right up to stale nodes. */
  lemma {:induction false} LeafWriteKeepsTree(nodes: seq<Digest>, layer: seq<Digest>, h: nat, dirty: set<nat>, k: nat,
      leaf: Digest)
    requires FlatTree(nodes, layer, h, dirty) && k < Pow2(h)
    ensures var at := Pow2(h) - 1 + k;
            FlatTree(nodes[at := leaf], layer[k := leaf], h, dirty + AncestorsOf(at))
  {
    hide HashInternal, Pow2;
    var at := Pow2(h) - 1 + k;
    var nodes', stale := nodes[at := leaf], dirty + AncestorsOf(at);
    forall i | 0 <= i < Pow2(h) - 1 && i !in stale ensures Matches(nodes', i) {
      assert Matches(nodes, i);
      assert at > 0 && (at - 1) / 2 in AncestorsOf(at);
      assert at != 2 * i + 1 && at != 2 * i + 2;
    }
  }

  lemma {:induction false} LayerUpdate(list: seq<Digest>, k: nat, leaf: Digest)
    requires k < |list|
    ensures k < |Layer(list)| && Layer(list[k := leaf]) == Layer(list)[k := HashLeaf(leaf)]
  {
    hide HashLeaf, Height, Pow2;
    var a, b := Layer(list[k := leaf]), Layer(list)[k := HashLeaf(leaf)];
    assert |a| == |b|;
    forall j | 0 <= j < |a| ensures a[j] == b[j] {
    }
  }

  lemma {:induction false} UpdateKeepsIncremental(leaves: map<Address, Digest>, nodes: seq<Digest>, capacity: nat,
      dirty: set<nat>, index: map<Address, nat>,
                               a: Address, leaf: Digest)
    requires Incremental(leaves, nodes, capacity, dirty, index) && a in leaves
    ensures a in index && 0 < capacity && capacity - 1 + index[a] < |nodes|
    ensures var at := capacity - 1 + index[a];
            Incremental(leaves[a := leaf], nodes[at := HashLeaf(leaf)], capacity, dirty + AncestorsOf(at), index)
  {
    hide FlatTree, Pow2, Height, SortedKeys, RankOf, HashLeaf, Layer, StaleClosed, AncestorsOf, LeafList;
    var h, list, k := Height(|leaves|), LeafList(leaves), RankOf(leaves.Keys, a);
    LeafListUpdate(leaves, a, leaf);
    LayerUpdate(list, k, leaf);
    FlatSize(nodes, Layer(list), h, dirty);
    LeafWriteKeepsTree(nodes, Layer(list), h, dirty, k, HashLeaf(leaf));
    AncestorsClosed(capacity - 1 + k, capacity);
    ClosedUnion(dirty, AncestorsOf(capacity - 1 + k), capacity);
    assert leaves[a := leaf].Keys == leaves.Keys;
  }

  /** A freshly built array and index satisfy the invariant with nothing stale. */
  lemma {:induction false} BuiltIsIncremental(leaves: map<Address, Digest>, nodes: seq<Digest>,
      index: map<Address, nat>)
    requires |leaves| > 0 && index == Ranks(leaves.Keys)
    requires FlatTree(nodes, Layer(LeafList(leaves)), Height(|leaves|), {})
    ensures nodes != [] && Incremental(leaves, nodes, Pow2(Height(|leaves|)), {}, index)
  {
  }

  lemma {:induction false} FlatSize(nodes: seq<Digest>, layer: seq<Digest>, h: nat, stale: set<nat>)
    requires FlatTree(nodes, layer, h, stale)
    ensures |nodes| == 2 * Pow2(h) - 1 && |layer| == Pow2(h)
  {
  }

  lemma {:induction false} ClosedUnion(a: set<nat>, b: set<nat>, capacity: nat)
    requires StaleClosed(a, capacity) && StaleClosed(b, capacity)
    ensures StaleClosed(a + b, capacity)
  {
  }

  // ---------------------------------------------------------------------------------
  // Flushing

  /** Recomputing a stale node whose stale ancestors are still pending settles it. */
  lemma {:induction false} FlushStep(nodes: seq<Digest>, layer: seq<Digest>, h: nat, pending: set<nat>, i: nat)
    requires i < Pow2(h) - 1 && FlatTree(nodes, layer, h, pending + {i})
    requires i > 0 ==> (i - 1) / 2 in pending
    ensures FlatTree(nodes[i := HashInternal(nodes[2 * i + 1], nodes[2 * i + 2])], layer, h, pending)
  {
    hide HashInternal, Pow2;
    var nodes' := nodes[i := HashInternal(nodes[2 * i + 1], nodes[2 * i + 2])];
    forall x | 0 <= x < Pow2(h) - 1 && x !in pending ensures Matches(nodes', x) {
      if x != i {
        assert Matches(nodes, x);
        assert i != 2 * x + 1 && i != 2 * x + 2;
      }
    }
  }

  /** The members of a strictly sorted sequence below position `t`. */
  ghost function Below(keys: seq<nat>, t: nat): (r: set<nat>)
    requires t <= |keys|
  {
    set j | 0 <= j < t :: keys[j]
  }

  lemma {:induction false} BelowStep(keys: seq<nat>, stale: set<nat>, capacity: nat, t: nat)
    requires StrictlySorted(keys) && (forall k :: k in keys <==> k in stale) && StaleClosed(stale, capacity)
    requires t < |keys|
    ensures Below(keys, t + 1) == Below(keys, t) + {keys[t]}
    ensures keys[t] < capacity - 1
    ensures keys[t] > 0 ==> (keys[t] - 1) / 2 in Below(keys, t)
  {
    var i := keys[t];
    assert i in keys;
    if i > 0 {
      var p := (i - 1) / 2;
      assert p in keys;
      var s :| 0 <= s < |keys| && keys[s] == p;
      assert s < t;
    }
  }

  lemma {:induction false} BelowAll(keys: seq<nat>, stale: set<nat>)
    requires forall k :: k in keys <==> k in stale
    ensures Below(keys, |keys|) == stale && Below(keys, 0) == {}
  {
    forall k | k in stale ensures k in Below(keys, |keys|) {
      var s :| 0 <= s < |keys| && keys[s] == k;
    }
  }

  /** Recomputes the stale nodes, deepest first. */
  method FlushNodes(before: seq<Digest>, stale: set<nat>, capacity: nat, ghost layer: seq<Digest>, ghost h: nat)
    returns (nodes: seq<Digest>)
    requires capacity == Pow2(h) && FlatTree(before, layer, h, stale) && StaleClosed(stale, capacity)
    ensures FlatTree(nodes, layer, h, {})
  {
    hide FlatTree, SortedKeys, Pow2, HashInternal, StaleClosed, Below;
    nodes := before;
    var keys := SortedKeys(stale);
    BelowAll(keys, stale);
    for t := |keys| downto 0
      invariant FlatTree(nodes, layer, h, Below(keys, t))
    {
      FlatSize(nodes, layer, h, Below(keys, t + 1));
      BelowStep(keys, stale, capacity, t);
      FlushStep(nodes, layer, h, Below(keys, t), keys[t]);
      var i := keys[t];
      nodes := nodes[i := HashInternal(nodes[2 * i + 1], nodes[2 * i + 2])];
    }
  }

  /** The rank of every key, by enumerating the keys in order. */
  method IndexKeys(all: set<Address>) returns (index: map<Address, nat>)
    ensures index == Ranks(all)
  {
    hide SortedKeys, RankOf;
    var keys := SortedKeys(all);
    index := map[];
    for i := 0 to |keys|
      invariant forall k :: k in index <==> exists j :: 0 <= j < i && keys[j] == k
      invariant forall j :: 0 <= j < i ==> index[keys[j]] == j
    {
      index := index[keys[i] := i];
    }
    forall k ensures k in index <==> k in all {
      assert k in keys <==> k in all;
    }
    forall k | k in all ensures index[k] == RankOf(all, k) {
      assert keys[RankOf(all, k)] == k;
    }
  }

  // ---------------------------------------------------------------------------------
  // The tree object

  class StateTree {
    var leaves: map<Address, Digest>
    var nodes: seq<Digest>
    var capacity: nat
    var structuralChange: bool
    var dirty: set<nat>
    var leafIndices: map<Address, nat>
    ghost var accounts: map<Address, Account>

    ghost predicate Valid()
      reads this
    {
      && leaves == LeavesOf(accounts)
      && (!structuralChange ==>
            if nodes == [] then |leaves| == 0 else Incremental(leaves, nodes, capacity, dirty, leafIndices))
    }

    constructor ()
      ensures Valid() && accounts == map[]
    {
      leaves, nodes, capacity, structuralChange, dirty, leafIndices := map[], [], 0, false, {}, map[];
      accounts := map[];
    }

    /** Loads every stored account and pre-builds the array; the flag stays set, so the
        next root builds it once more. */
    constructor FromStorage(all: seq<(Address, Account)>)
      ensures Valid() && accounts == Transactions.ApplyDeltas(map[], all)
    {
      hide AccountLeaf, LeavesOf, Incremental;
      EmptyLeaves();
      var found: map<Address, Digest> := map[];
      ghost var stored: map<Address, Account> := map[];
      for i := 0 to |all|
        invariant stored == Transactions.ApplyDeltas(map[], all[..i]) && found == LeavesOf(stored)
      {
        assert all[..i + 1][..i] == all[..i];
        LeavesOfAdd(stored, all[i].0, all[i].1);
        found := found[all[i].0 := AccountLeaf(all[i].0, all[i].1)];
        stored := stored[all[i].0 := all[i].1];
      }
      assert all[..|all|] == all;
      leaves, nodes, capacity, structuralChange, dirty, leafIndices := found, [], 0, true, {}, map[];
      accounts := stored;
      new;
      if |leaves| > 0 {
        FullRebuild();
      }
    }

    method Update(deltas: seq<(Address, Account)>)
      requires Valid()
      modifies this
      ensures Valid() && accounts == Transactions.ApplyDeltas(old(accounts), deltas)
    {
      hide Incremental, AccountLeaf;
      for i := 0 to |deltas|
        invariant Valid() && accounts == Transactions.ApplyDeltas(old(accounts), deltas[..i])
      {
        assert deltas[..i + 1][..i] == deltas[..i];
        UpdateOne(deltas[i].0, deltas[i].1);
      }
      assert deltas[..|deltas|] == deltas;
    }

    method UpdateOne(address: Address, account: Account)
      requires Valid()
      modifies this
      ensures Valid() && accounts == old(accounts)[address := account]
    {
      hide Incremental, AccountLeaf, HashLeaf, LeavesOf, AncestorsOf;
      var leaf := AccountLeaf(address, account);
      LeavesOfAdd(accounts, address, account);
      accounts := accounts[address := account];
      if address in leaves {
        if !structuralChange && nodes != [] {
          UpdateKeepsIncremental(leaves, nodes, capacity, dirty, leafIndices, address, leaf);
          var at := capacity - 1 + leafIndices[address];
          nodes := nodes[at := HashLeaf(leaf)];
          MarkAncestorsDirty(at);
        }
        leaves := leaves[address := leaf];
      } else {
        leaves := leaves[address := leaf];
        structuralChange := true;
      }
    }

    method MarkAncestorsDirty(at: nat)
      modifies this`dirty
      ensures dirty == old(dirty) + AncestorsOf(at)
    {
      var i := at;
      while i > 0
        invariant dirty + AncestorsOf(i) == old(dirty) + AncestorsOf(at)
      {
        i := (i - 1) / 2;
        dirty := dirty + {i};
      }
    }

    method Remove(address: Address)
      requires Valid()
      modifies this
      ensures Valid() && accounts == old(accounts) - {address}
    {
      hide Incremental, LeavesOf;
      LeavesOfRemove(accounts, address);
      if address in leaves {
        leaves := leaves - {address};
        structuralChange := true;
      } else {
        assert leaves - {address} == leaves;
      }
      accounts := accounts - {address};
    }

    /** Rebuilds the array and the rank index from the leaf map. */
    method FullRebuild()
      requires |leaves| > 0
      modifies this`nodes, this`capacity, this`leafIndices
      ensures nodes != [] && Incremental(leaves, nodes, capacity, {}, leafIndices)
    {
      hide Incremental, Layer, FlatTree, Height, Pow2, Ranks, SortedKeys;
      nodes := BuildNodes(LeafList(leaves));
      capacity := Pow2(Height(|leaves|));
      leafIndices := IndexKeys(leaves.Keys);
      BuiltIsIncremental(leaves, nodes, leafIndices);
    }

    method EnsureRebuilt()
      requires Valid()
      modifies this
      ensures Valid() && !structuralChange && leaves == old(leaves) && accounts == old(accounts)
      ensures |leaves| > 0 ==> nodes != []
    {
      hide Incremental, LeavesOf;
      if structuralChange || nodes == [] {
        if |leaves| == 0 {
          nodes, capacity := [], 0;
        } else {
          FullRebuild();
        }
        structuralChange := false;
        dirty := {};
      }
    }

    method FlushDirty()
      requires Incremental(leaves, nodes, capacity, dirty, leafIndices)
      modifies this`nodes, this`dirty
      ensures dirty == {} && nodes != [] && Incremental(leaves, nodes, capacity, {}, leafIndices)
    {
      hide FlatTree, Pow2, Height, Layer, StaleClosed, Ranks, LeafList;
      nodes := FlushNodes(nodes, dirty, capacity, Layer(LeafList(leaves)), Height(|leaves|));
      dirty := {};
      BuiltIsIncremental(leaves, nodes, leafIndices);
    }

    /** The root of the current accounts, however they came about. */
    method Root() returns (r: Digest)
      requires Valid()
      modifies this
      ensures Valid() && accounts == old(accounts)
      ensures r == StateRoot(accounts)
    {
      hide Incremental, LeavesOf, LeafList;
      if |leaves| == 0 {
        return ZeroDigest;
      }
      EnsureRebuilt();
      FlushDirty();
      RootIsFirst(leaves, nodes, capacity, leafIndices);
      r := nodes[0];
    }

    /** A proof for every tracked account and no other. */
    method Proof(address: Address) returns (r: Option<StateProof>)
      requires Valid()
      modifies this
      ensures Valid() && accounts == old(accounts)
      ensures r.Some? <==> address in accounts
      ensures r.Some? ==>
                && |LeafList(LeavesOf(accounts))| > 0
                && r.value.leafIndex == RankOf(accounts.Keys, address) && r.value.totalLeaves == |accounts|
                && Proves(LeafList(LeavesOf(accounts)), RankOf(accounts.Keys, address), r.value.siblings, r.value.path)
                && Verifies(StateRoot(accounts), address, accounts[address], r.value)
    {
      hide Incremental, LeavesOf, LeafList, Proves, Verifies, Height, Layer, Ranks, RankOf, SortedKeys, StateRoot;
      LeavesSize(accounts);
      if |leaves| == 0 {
        return None;
      }
      EnsureRebuilt();
      FlushDirty();
      IndexIsRank(accounts, nodes, capacity, leafIndices);
      if address !in leafIndices {
        return None;
      }
      var k := leafIndices[address];
      ghost var list := LeafList(leaves);
      var siblings, path := CollectSiblings(nodes, capacity - 1 + k, Layer(list), Height(|list|), k);
      var proof := StateProof(siblings, path, k, |leaves|);
      HonestIsProof(list, k, siblings, path);
      ProofAcceptedIff(accounts, address, accounts[address], proof);
      r := Some(proof);
    }
  }

  lemma {:induction false} HonestIsProof(list: seq<Digest>, k: nat, siblings: seq<Digest>, path: seq<bool>)
    requires |list| > 0 && k < Pow2(Height(|list|)) && |siblings| == |path| == Height(|list|)
    requires Honest(Layer(list), Height(|list|), k, siblings, path, Height(|list|))
    ensures Proves(list, k, siblings, path)
  {
  }

  /** What the invariant says to a walk that starts at an indexed leaf. */
  lemma {:induction false} IndexIsRank(accounts: map<Address, Account>, nodes: seq<Digest>, capacity: nat,
      index: map<Address, nat>)
    requires Incremental(LeavesOf(accounts), nodes, capacity, {}, index)
    ensures var list := LeafList(LeavesOf(accounts));
            && |list| == |accounts| > 0 && capacity == Pow2(Height(|list|)) &&
                FlatTree(nodes, Layer(list), Height(|list|), {})
            && forall a :: (a in index <==> a in accounts) &&
                (a in index ==> index[a] == RankOf(accounts.Keys, a) < Pow2(Height(|list|)))
  {
    hide FlatTree, Layer, RankOf, SortedKeys, AccountLeaf, Height, Pow2;
    LeavesSize(accounts);
    assert LeavesOf(accounts).Keys == accounts.Keys;
  }

  lemma {:induction false} RootIsFirst(leaves: map<Address, Digest>, nodes: seq<Digest>, capacity: nat,
      index: map<Address, nat>)
    requires Incremental(leaves, nodes, capacity, {}, index)
    ensures |nodes| > 0 && nodes[0] == MerkleRoot(LeafList(leaves))
  {
    FlatNode(nodes, Layer(LeafList(leaves)), Height(|leaves|), 0, 0);
  }

  // ---------------------------------------------------------------------------------
  // Every run

  datatype TreeCall = CallUpdate(deltas: seq<(Address,
      Account)>) | CallRemove(address: Address) | CallRoot | CallProof(address: Address)
  datatype TreeAnswer = Done | RootIs(root: Digest) | ProofIs(proof: Option<StateProof>)

  /** The accounts after a call: roots and proofs change nothing. */
  function After(accounts: map<Address, Account>, call: TreeCall): (r: map<Address, Account>) {
    match call
    case CallUpdate(deltas) => Transactions.ApplyDeltas(accounts, deltas)
    case CallRemove(a) => accounts - {a}
    case _ => accounts
  }

  function AccountsAfter(calls: seq<TreeCall>, n: nat): (r: map<Address, Account>)
    requires n <= |calls|
  {
    if n == 0 then map[] else After(AccountsAfter(calls, n - 1), calls[n - 1])
  }

  /** The answer a call must get when the accounts are these. */
  ghost predicate Answers(accounts: map<Address, Account>, call: TreeCall, answer: TreeAnswer) {
    match call
    case CallRoot => answer == RootIs(StateRoot(accounts))
    case CallProof(a) =>
      && answer.ProofIs? && (answer.proof.Some? <==> a in accounts)
      && (answer.proof.Some? ==> Verifies(StateRoot(accounts), a, accounts[a], answer.proof.value))
    case _ => answer == Done
  }

  method Call(tree: StateTree, call: TreeCall) returns (answer: TreeAnswer)
    requires tree.Valid()
    modifies tree
    ensures tree.Valid() && tree.accounts == After(old(tree.accounts), call)
    ensures Answers(old(tree.accounts), call, answer)
  {
    hide LeavesOf, Incremental, StateRoot, Verifies, LeafList, Proves;
    answer := Done;
    match call {
      case CallUpdate(deltas) => tree.Update(deltas);
      case CallRemove(a) => tree.Remove(a);
      case CallRoot => var r := tree.Root(); answer := RootIs(r);
      case CallProof(a) => var p := tree.Proof(a); answer := ProofIs(p);
    }
  }

  /** Any interleaving of updates, removals, roots and proofs on a fresh tree is answered
      from the accounts alone: roots are the from-scratch ones, proofs verify. */
  method Replay(calls: seq<TreeCall>) returns (answers: seq<TreeAnswer>)
    ensures |answers| == |calls|
    ensures forall i :: 0 <= i < |calls| ==> Answers(AccountsAfter(calls, i), calls[i], answers[i])
  {
    hide LeavesOf, Incremental, Answers, After;
    var tree := new StateTree();
    answers := [];
    for i := 0 to |calls|
      invariant fresh(tree) && tree.Valid() && tree.accounts == AccountsAfter(calls, i)
      invariant |answers| == i
      invariant forall j :: 0 <= j < i ==> Answers(AccountsAfter(calls, j), calls[j], answers[j])
    {
      var answer := Call(tree, calls[i]);
      answers := answers + [answer];
    }
  }
}
