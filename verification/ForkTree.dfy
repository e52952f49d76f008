/** The fork tree (consensus/src/fork_choice.rs) as a map of nodes linked by parent slots and
    child lists: what its links mean, and what each operation does to them. */
module ForkTrees {
  import opened Crypto

  const MAX_FORK_TREE_NODES: nat := 256

  datatype Commitment = Processed | Confirmed | Finalized

  datatype Node = Node(
    parent: Option<nat>,
    blockHash: Address,
    bankHash: Address,
    children: seq<nat>,
    stakeVoted: nat,
    subtreeStake: nat,
    connected: bool,
    commitment: Commitment,
    voters: set<Address>)

  type Nodes = map<nat, Node>

  datatype ForkError = SlotAlreadyProcessed(slot: nat) | MaxDepthExceeded(depth: nat, max: nat) | InvalidRoot(slot: nat)

  // ---------------------------------------------------------------------------------
  // Links

  ghost predicate ParentsBelow(nodes: Nodes) {
    forall s :: s in nodes && nodes[s].parent.Some? ==> nodes[s].parent.value < s
  }

  /** `a` lies on the parent chain of `s`, which ends at a node without parent or at the
      first slot that is not in the tree (that slot included). */
  ghost predicate IsAncestor(nodes: Nodes, a: nat, s: nat)
    requires ParentsBelow(nodes)
    decreases s
  {
    a == s || (s in nodes && nodes[s].parent.Some? && IsAncestor(nodes, a, nodes[s].parent.value))
  }

  /** `s` is reached from `r` by child lists. */
  ghost predicate Listed(nodes: Nodes, r: nat, s: nat)
    requires ParentsBelow(nodes)
    decreases s
  {
    || s == r
    || (s in nodes && nodes[s].parent.Some?
        && var p := nodes[s].parent.value; p in nodes && s in nodes[p].children && Listed(nodes, r, p))
  }

  /** Child lists hold present nodes that name the lister as parent, each once. */
  ghost predicate ChildrenLinked(nodes: Nodes) {
    && (forall s, i :: s in nodes && 0 <= i < |nodes[s].children| ==>
          nodes[s].children[i] in nodes && nodes[nodes[s].children[i]].parent == Some(s))
    && (forall s, i, j :: s in nodes && 0 <= i < j < |nodes[s].children| ==>
        nodes[s].children[i] != nodes[s].children[j])
  }

  /** Listed children share their parent's connection flag, and a connected node other
      than the root is listed by its parent. */
  ghost predicate FlagsAgree(nodes: Nodes, root: nat) {
    && (forall s, i :: s in nodes && 0 <= i < |nodes[s].children| && nodes[s].children[i] in nodes ==>
          nodes[nodes[s].children[i]].connected == nodes[s].connected)
    && (forall s :: s in nodes && s != root && nodes[s].connected ==>
          nodes[s].parent.Some? && nodes[s].parent.value in nodes && s in nodes[nodes[s].parent.value].children)
  }

  ghost predicate Shape(nodes: Nodes, root: nat) {
    && ParentsBelow(nodes)
    && root in nodes
    && (forall s :: s in nodes ==> (nodes[s].parent.None? <==> s == root))
    && ChildrenLinked(nodes)
    && FlagsAgree(nodes, root)
  }

  lemma {:induction false} AncestorBelow(nodes: Nodes, a: nat, s: nat)
    requires ParentsBelow(nodes) && IsAncestor(nodes, a, s)
    ensures a <= s
    decreases s
  {
    if a == s {
    } else {
      AncestorBelow(nodes, a, nodes[s].parent.value);
    }
  }

  lemma {:induction false} AncestorTransitive(nodes: Nodes, a: nat, b: nat, c: nat)
    requires ParentsBelow(nodes) && IsAncestor(nodes, a, b) && IsAncestor(nodes, b, c)
    ensures IsAncestor(nodes, a, c)
    decreases c
  {
    if b == c {
    } else {
      AncestorTransitive(nodes, a, b, nodes[c].parent.value);
    }
  }

  /** Two slots on one chain are ancestors of one another. */
  lemma {:induction false} ChainLinear(nodes: Nodes, a: nat, b: nat, s: nat)
    requires ParentsBelow(nodes) && IsAncestor(nodes, a, s) && IsAncestor(nodes, b, s) && a <= b
    ensures IsAncestor(nodes, a, b)
    decreases s
  {
    if b == s {
    } else if a == s {
      AncestorBelow(nodes, b, s);
    } else {
      ChainLinear(nodes, a, b, nodes[s].parent.value);
    }
  }

  lemma {:induction false} ListedIsAncestor(nodes: Nodes, r: nat, s: nat)
    requires ParentsBelow(nodes) && Listed(nodes, r, s)
    ensures IsAncestor(nodes, r, s)
    decreases s
  {
    if s == r {
    } else {
      ListedIsAncestor(nodes, r, nodes[s].parent.value);
    }
  }

  /** The parent chain from a slot upwards, as the source's walk collects it. */
  function Ancestry(nodes: Nodes, s: nat): (r: seq<nat>)
    requires ParentsBelow(nodes)
    ensures |r| > 0 && r[0] == s
    decreases s
  {
    if s in nodes && nodes[s].parent.Some? then [s] + Ancestry(nodes, nodes[s].parent.value) else [s]
  }

  /** A list from high to low in which each entry is the parent of the one before. */
  ghost predicate Descends(nodes: Nodes, r: seq<nat>) {
    && (forall i, j :: 0 <= i < j < |r| ==> r[i] > r[j])
    && (forall i :: 0 <= i < |r| - 1 ==> r[i] in nodes && nodes[r[i]].parent == Some(r[i + 1]))
  }

  lemma {:induction false} DescendsFrom(nodes: Nodes, s: nat, rest: seq<nat>)
    requires Descends(nodes, rest) && |rest| > 0 && s > rest[0] && s in nodes && nodes[s].parent == Some(rest[0])
    ensures Descends(nodes, [s] + rest)
  {
    var r := [s] + rest;
    forall i, j | 0 <= i < j < |r| ensures r[i] > r[j] {
      assert r[j] == rest[j - 1];
      if i > 0 { assert r[i] == rest[i - 1]; }
    }
    forall i | 0 <= i < |r| - 1 ensures r[i] in nodes && nodes[r[i]].parent == Some(r[i + 1]) {
      assert r[i + 1] == rest[i];
      if i > 0 { assert r[i] == rest[i - 1]; }
    }
  }

  /** The walk lists exactly the ancestors, from high to low. */
  lemma {:induction false} AncestryMeaning(nodes: Nodes, s: nat)
    requires ParentsBelow(nodes)
    ensures Descends(nodes, Ancestry(nodes, s))
    ensures forall a :: a in Ancestry(nodes, s) <==> IsAncestor(nodes, a, s)
    decreases s
  {
    if s in nodes && nodes[s].parent.Some? {
      var p := nodes[s].parent.value;
      AncestryMeaning(nodes, p);
      DescendsFrom(nodes, s, Ancestry(nodes, p));
    }
  }

  // ---------------------------------------------------------------------------------
  // Adding a slot

  function Insert(nodes: Nodes, slot: nat, parent: nat, blockHash: Address, bankHash: Address): (r: Nodes) {
    var connected := parent in nodes && nodes[parent].connected;
    var linked := if parent in nodes then nodes[parent := nodes[parent].(children := nodes[parent].children + [slot])]
        else nodes;
    linked[slot := Node(Some(parent), blockHash, bankHash, [], 0, 0, connected, Processed, {})]
  }

  /** `now` is `was` with a slot added: a fresh node with its hashes, connected as its parent
      is, and listed last by the parent if that is there. */
  ghost predicate AddedUnder(was: Nodes, slot: nat, parent: nat, blockHash: Address, bankHash: Address, now: Nodes) {
    && now.Keys == was.Keys + {slot}
    && now[slot].parent == Some(parent) && now[slot].blockHash == blockHash && now[slot].bankHash == bankHash
    && now[slot].children == [] && now[slot].voters == {} && now[slot].stakeVoted == 0 && now[slot].subtreeStake == 0
    && now[slot].commitment == Processed && (now[slot].connected <==> parent in was && was[parent].connected)
    && (parent in was ==> now[parent] == was[parent].(children := was[parent].children + [slot]))
    && forall s :: s in was && s != parent ==> now[s] == was[s]
  }

  lemma {:induction false} InsertAdds(nodes: Nodes, slot: nat, parent: nat, blockHash: Address, bankHash: Address)
    requires slot !in nodes
    ensures AddedUnder(nodes, slot, parent, blockHash, bankHash, Insert(nodes, slot, parent, blockHash, bankHash))
  {
  }

  lemma {:induction false} InsertParents(nodes: Nodes, slot: nat, parent: nat, blockHash: Address, bankHash: Address)
    requires ParentsBelow(nodes) && slot !in nodes && parent < slot
    ensures ParentsBelow(Insert(nodes, slot, parent, blockHash, bankHash))
  {
  }

  lemma {:induction false} InsertChildren(nodes: Nodes, slot: nat, parent: nat, blockHash: Address, bankHash: Address)
    requires ParentsBelow(nodes) && ChildrenLinked(nodes) && slot !in nodes && parent < slot
    ensures ChildrenLinked(Insert(nodes, slot, parent, blockHash, bankHash))
  {
    var r := Insert(nodes, slot, parent, blockHash, bankHash);
    forall s, i | s in r && 0 <= i < |r[s].children|
      ensures r[s].children[i] in r && r[r[s].children[i]].parent == Some(s)
    {
      if !(s == parent && i == |r[s].children| - 1) {
        assert r[s].children[i] == nodes[s].children[i];
      }
    }
    forall s, i, j | s in r && 0 <= i < j < |r[s].children| ensures r[s].children[i] != r[s].children[j] {
      assert r[s].children[i] == nodes[s].children[i];
      assert r[s].children[j] == slot || r[s].children[j] == nodes[s].children[j];
    }
  }

  lemma {:induction false} InsertFlags(nodes: Nodes, root: nat, slot: nat, parent: nat, blockHash: Address,
      bankHash: Address)
    requires Shape(nodes, root) && slot !in nodes && parent < slot
    ensures FlagsAgree(Insert(nodes, slot, parent, blockHash, bankHash), root)
  {
    var r := Insert(nodes, slot, parent, blockHash, bankHash);
    forall s, i | s in r && 0 <= i < |r[s].children| && r[s].children[i] in r
      ensures r[r[s].children[i]].connected == r[s].connected
    {
      if !(s == parent && i == |r[s].children| - 1) {
        assert r[s].children[i] == nodes[s].children[i];
      }
    }
    forall s | s in r && s != root && r[s].connected
      ensures r[s].parent.Some? && r[s].parent.value in r && s in r[r[s].parent.value].children
    {
      if s == slot {
        assert r[parent].children[|nodes[parent].children|] == slot;
      } else {
        assert s in nodes[nodes[s].parent.value].children;
      }
    }
  }

  lemma {:induction false} InsertShape(nodes: Nodes, root: nat, slot: nat, parent: nat, blockHash: Address,
      bankHash: Address)
    requires Shape(nodes, root) && slot !in nodes && parent < slot
    ensures Shape(Insert(nodes, slot, parent, blockHash, bankHash), root)
  {
    hide ChildrenLinked, FlagsAgree;
    InsertChildren(nodes, slot, parent, blockHash, bankHash);
    InsertFlags(nodes, root, slot, parent, blockHash, bankHash);
  }

  /** A new slot never breaks a chain; it can only extend one that ended at it. */
  lemma {:induction false} InsertAncestor(nodes: Nodes, slot: nat, parent: nat, blockHash: Address, bankHash: Address,
      a: nat, s: nat)
    requires ParentsBelow(nodes) && slot !in nodes && parent < slot && IsAncestor(nodes, a, s)
    ensures ParentsBelow(Insert(nodes, slot, parent, blockHash, bankHash))
    ensures IsAncestor(Insert(nodes, slot, parent, blockHash, bankHash), a, s)
    decreases s
  {
    InsertParents(nodes, slot, parent, blockHash, bankHash);
    if a == s {
    } else {
      InsertAncestor(nodes, slot, parent, blockHash, bankHash, a, nodes[s].parent.value);
    }
  }

  /** Every node but the root has its parent in the tree and is listed by it. */
  ghost predicate NoOrphans(nodes: Nodes, root: nat) {
    forall s :: s in nodes && s != root ==>
      nodes[s].parent.Some? && nodes[s].parent.value in nodes && s in nodes[nodes[s].parent.value].children
  }

  lemma {:induction false} InsertParentOf(nodes: Nodes, slot: nat, parent: nat, blockHash: Address, bankHash: Address,
      s: nat)
    requires slot !in nodes && s in nodes
    ensures s in Insert(nodes, slot, parent, blockHash, bankHash)
    ensures Insert(nodes, slot, parent, blockHash, bankHash)[s].parent == nodes[s].parent
  {
  }

  /** Without orphans the new slot joins no existing chain. */
  lemma {:induction false} InsertAncestorExact(nodes: Nodes, root: nat, slot: nat, parent: nat, blockHash: Address,
      bankHash: Address, a: nat, s: nat)
    requires Shape(nodes, root) && NoOrphans(nodes, root) && slot !in nodes && parent < slot && s in nodes
    ensures ParentsBelow(Insert(nodes, slot, parent, blockHash, bankHash))
    ensures IsAncestor(Insert(nodes, slot, parent, blockHash, bankHash), a, s) <==> IsAncestor(nodes, a, s)
    decreases s
  {
    hide Insert, ChildrenLinked, FlagsAgree;
    InsertParents(nodes, slot, parent, blockHash, bankHash);
    InsertParentOf(nodes, slot, parent, blockHash, bankHash, s);
    if s == root {
    } else {
      InsertAncestorExact(nodes, root, slot, parent, blockHash, bankHash, a, nodes[s].parent.value);
    }
  }

  // ---------------------------------------------------------------------------------
  // Operations that leave the links alone

  ghost predicate SameLinks(a: Nodes, b: Nodes) {
    && a.Keys == b.Keys
    && forall s :: s in a ==>
        a[s].parent == b[s].parent && a[s].children == b[s].children && a[s].connected == b[s].connected
  }

  lemma {:induction false} SameLinksShape(a: Nodes, b: Nodes, root: nat)
    requires SameLinks(a, b) && Shape(a, root)
    ensures Shape(b, root)
  {
  }

  lemma {:induction false} SameParentsAncestor(a: Nodes, b: Nodes, x: nat, s: nat)
    requires ParentsBelow(a) && a.Keys == b.Keys && forall s :: s in a ==> a[s].parent == b[s].parent
    ensures ParentsBelow(b) && (IsAncestor(a, x, s) <==> IsAncestor(b, x, s))
    decreases s
  {
    if s in a && a[s].parent.Some? {
      SameParentsAncestor(a, b, x, a[s].parent.value);
    }
  }

  // ---------------------------------------------------------------------------------
  // Moving the root

  /** The subtree listed under the new root, which loses its parent. */
  ghost function Prune(nodes: Nodes, r: nat): Nodes
    requires ParentsBelow(nodes)
  {
    map s | s in nodes && Listed(nodes, r, s) ::
      if s == r then nodes[s].(parent := None, commitment := Finalized) else nodes[s]
  }

  /** `now` is the subtree listed under `r`, unchanged but for its root, which is finalized and
      has no parent. */
  ghost predicate PrunedTo(was: Nodes, r: nat, now: Nodes)
    requires ParentsBelow(was)
  {
    && r in was && r in now
    && (forall s :: s in now <==> s in was && Listed(was, r, s))
    && (forall s :: s in now && s != r ==> now[s] == was[s])
    && now[r].parent == None && now[r].commitment == Finalized
    && now[r] == was[r].(parent := now[r].parent, commitment := now[r].commitment)
  }

  lemma {:induction false} PruneIs(nodes: Nodes, r: nat)
    requires ParentsBelow(nodes) && r in nodes
    ensures PrunedTo(nodes, r, Prune(nodes, r))
  {
  }

  lemma {:induction false} ListedChild(nodes: Nodes, r: nat, s: nat, i: nat)
    requires ParentsBelow(nodes) && ChildrenLinked(nodes) && Listed(nodes, r, s) && s in nodes
    requires 0 <= i < |nodes[s].children|
    ensures Listed(nodes, r, nodes[s].children[i]) && nodes[s].children[i] > r
  {
    ListedIsAncestor(nodes, r, s);
    AncestorBelow(nodes, r, s);
  }

  lemma {:induction false} PruneShape(nodes: Nodes, root: nat, r: nat)
    requires Shape(nodes, root) && r in nodes
    ensures Shape(Prune(nodes, r), r)
  {
    var t := Prune(nodes, r);
    assert ParentsBelow(t);
    forall s, i | s in t && 0 <= i < |t[s].children|
      ensures t[s].children[i] in t && t[t[s].children[i]].parent == Some(s)
      ensures t[t[s].children[i]].connected == t[s].connected
    {
      ListedChild(nodes, r, s, i);
      assert nodes[s].children[i] in nodes;
    }
    assert ChildrenLinked(t) by {
      forall s, i, j | s in t && 0 <= i < j < |t[s].children| ensures t[s].children[i] != t[s].children[j] {
        assert nodes[s].children[i] != nodes[s].children[j];
      }
    }
  }

  /** Chains within the surviving subtree are unchanged. */
  lemma {:induction false} PruneAncestor(nodes: Nodes, root: nat, r: nat, a: nat, s: nat)
    requires Shape(nodes, root) && r in nodes && s in nodes && Listed(nodes, r, s) && a in nodes && Listed(nodes, r, a)
    ensures ParentsBelow(Prune(nodes, r)) && (IsAncestor(Prune(nodes, r), a, s) <==> IsAncestor(nodes, a, s))
    decreases s
  {
    PruneShape(nodes, root, r);
    if s == r {
      ListedIsAncestor(nodes, r, a);
      AncestorBelow(nodes, r, a);
      if IsAncestor(nodes, a, s) {
        AncestorBelow(nodes, a, s);
      }
    } else {
      PruneAncestor(nodes, root, r, a, nodes[s].parent.value);
    }
  }
}
