/** Binary Merkle trees in a flat array (crypto/src/merkle.rs, and the array half of
    consensus/src/state_tree.rs).

    The reference tree is given by coordinates: depth `d` holds 2^d nodes, node (d, j) has
    children (d + 1, 2j) and (d + 1, 2j + 1), and the leaves sit at depth `h`.  The flat
    array stores node (d, j) at index 2^d - 1 + j. */
module Merkle {
  import opened Arithmetic
  import opened Crypto

  function HashLeaf(d: Digest): (r: Digest) {
    Hashed([Octet(0), Sub(d)])
  }

  function HashInternal(left: Digest, right: Digest): (r: Digest) {
    Hashed([Octet(1), Sub(left), Sub(right)])
  }

  /** The two domains never meet, and neither hash forgets its inputs. */
  lemma {:induction false} HashInjective(a: Digest, b: Digest, c: Digest, d: Digest)
    ensures HashLeaf(a) == HashLeaf(b) <==> a == b
    ensures HashInternal(a, b) == HashInternal(c, d) <==> a == c && b == d
    ensures HashLeaf(a) != HashInternal(b, c)
  {
    var x, y := [Octet(0), Sub(a)], [Octet(0), Sub(b)];
    assert x == y ==> x[1] == y[1];
    var u, v := [Octet(1), Sub(a), Sub(b)], [Octet(1), Sub(c), Sub(d)];
    assert u == v ==> u[1] == v[1] && u[2] == v[2];
    assert |x| != |[Octet(1), Sub(b), Sub(c)]|;
  }

  /** The depth of the padded tree over `n` leaves: 2^h is the least power of two >= n. */
  function Height(n: nat): (h: nat)
    requires n > 0
    ensures Pow2(h) >= n && (n > 1 ==> h > 0 && Pow2(h - 1) < n) && (n == 1 ==> h == 0)
  {
    if n == 1 then 0 else 1 + Height((n + 1) / 2)
  }

  /** The leaf at position `k` of the padded layer. */
  function LeafAt(leaves: seq<Digest>, k: nat): (r: Digest) {
    if k < |leaves| then leaves[k] else ZeroDigest
  }

  /** The hashed leaf layer, padded with hashes of the zero digest. */
  function Layer(leaves: seq<Digest>): (r: seq<Digest>)
    requires |leaves| > 0
    ensures |r| == Pow2(Height(|leaves|))
    ensures forall j :: 0 <= j < |r| ==> r[j] == HashLeaf(LeafAt(leaves, j))
  {
    seq(Pow2(Height(|leaves|)), j requires 0 <= j => HashLeaf(LeafAt(leaves, j)))
  }

  /** The reference value of node (d, j) over a layer of 2^h hashed leaves. */
  function Node(layer: seq<Digest>, h: nat, d: nat, j: nat): (r: Digest)
    requires |layer| == Pow2(h) && d <= h && j < Pow2(d)
    decreases h - d
  {
    if d == h then layer[j]
    else HashInternal(Node(layer, h, d + 1, 2 * j), Node(layer, h, d + 1, 2 * j + 1))
  }

  /** The root of a list of leaves; the zero digest for no leaves. */
  function MerkleRoot(leaves: seq<Digest>): (r: Digest) {
    if |leaves| == 0 then ZeroDigest else Node(Layer(leaves), Height(|leaves|), 0, 0)
  }

  // ---------------------------------------------------------------------------------
  // The flat array

  ghost predicate Matches(nodes: seq<Digest>, i: nat)
    requires 2 * i + 2 < |nodes|
  {
    nodes[i] == HashInternal(nodes[2 * i + 1], nodes[2 * i + 2])
  }

  /** Leaf layer in place, and every internal node outside `stale` the hash of its children. */
  ghost predicate FlatTree(nodes: seq<Digest>, layer: seq<Digest>, h: nat, stale: set<nat>) {
    && |layer| == Pow2(h) && |nodes| == 2 * Pow2(h) - 1
    && (forall j :: 0 <= j < |layer| ==> nodes[Pow2(h) - 1 + j] == layer[j])
    && (forall i :: 0 <= i < Pow2(h) - 1 && i !in stale ==> Matches(nodes, i))
  }

  /** A flat tree without stale nodes stores the reference value of every node. */
  lemma {:induction false} FlatNode(nodes: seq<Digest>, layer: seq<Digest>, h: nat, d: nat, j: nat)
    requires FlatTree(nodes, layer, h, {}) && d <= h && j < Pow2(d)
    ensures Pow2(d) - 1 + j < |nodes| && nodes[Pow2(d) - 1 + j] == Node(layer, h, d, j)
    decreases h - d
  {
    Pow2Grows(d, h);
    if d == h {
    } else {
      FlatNode(nodes, layer, h, d + 1, 2 * j);
      FlatNode(nodes, layer, h, d + 1, 2 * j + 1);
      assert Matches(nodes, Pow2(d) - 1 + j);
    }
  }

  /** A zeroed array with the leaf layer filled in and padded. */
  method FillLeaves(leaves: seq<Digest>, count: nat) returns (nodes: seq<Digest>)
    requires 0 < |leaves| && count == Pow2(Height(|leaves|))
    ensures |nodes| == 2 * count - 1
    ensures forall j :: 0 <= j < count ==> nodes[count - 1 + j] == Layer(leaves)[j]
  {
    hide HashLeaf, Height, Pow2;
    nodes := seq(2 * count - 1, _ => ZeroDigest);
    for i := 0 to |leaves|
      invariant |nodes| == 2 * count - 1
      invariant forall j :: 0 <= j < i ==> nodes[count - 1 + j] == HashLeaf(leaves[j])
    {
      nodes := nodes[count - 1 + i := HashLeaf(leaves[i])];
    }
    var pad := HashLeaf(ZeroDigest);
    for i := |leaves| to count
      invariant |nodes| == 2 * count - 1
      invariant forall j :: 0 <= j < i ==> nodes[count - 1 + j] == HashLeaf(LeafAt(leaves, j))
    {
      nodes := nodes[count - 1 + i := pad];
    }
  }

  /** Hashes the internal nodes bottom-up, leaving the leaf layer alone. */
  method HashUp(filled: seq<Digest>, count: nat) returns (nodes: seq<Digest>)
    requires count > 0 && |filled| == 2 * count - 1
    ensures |nodes| == |filled| && nodes[count - 1..] == filled[count - 1..]
    ensures forall i :: 0 <= i < count - 1 ==> Matches(nodes, i)
  {
    hide HashInternal;
    nodes := filled;
    for i := count - 1 downto 0
      invariant |nodes| == |filled| && nodes[count - 1..] == filled[count - 1..]
      invariant forall t :: i <= t < count - 1 ==> Matches(nodes, t)
    {
      ghost var before := nodes;
      nodes := nodes[i := HashInternal(nodes[2 * i + 1], nodes[2 * i + 2])];
      forall t | i < t < count - 1 ensures Matches(nodes, t) {
        assert Matches(before, t);
      }
    }
  }

  /** A node hashes the byte 1, its left child and its right child, in this order. */
  ghost predicate HashesChildren(nodes: seq<Digest>, i: nat) {
    2 * i + 2 < |nodes| && nodes[i] == Hashed([Octet(1), Sub(nodes[2 * i + 1]), Sub(nodes[2 * i + 2])])
  }

  ghost predicate HashesLeaf(node: Digest, leaf: Digest) {
    node == Hashed([Octet(0), Sub(leaf)])
  }

  lemma {:induction false} BuiltHashes(nodes: seq<Digest>, leaves: seq<Digest>)
    requires |leaves| > 0 && FlatTree(nodes, Layer(leaves), Height(|leaves|), {})
    ensures var count := Pow2(Height(|leaves|));
            && (forall i :: 0 <= i < count - 1 ==> HashesChildren(nodes, i))
            && (forall j :: 0 <= j < count ==> HashesLeaf(nodes[count - 1 + j], LeafAt(leaves, j)))
  {
    hide Height, Pow2;
    var count := Pow2(Height(|leaves|));
    forall i | 0 <= i < count - 1 ensures HashesChildren(nodes, i) {
      assert Matches(nodes, i);
    }
    forall j | 0 <= j < count ensures HashesLeaf(nodes[count - 1 + j], LeafAt(leaves, j)) {
      assert nodes[count - 1 + j] == Layer(leaves)[j];
    }
  }

  /** Builds the whole array for a non-empty list of leaves. */
  method BuildNodes(leaves: seq<Digest>) returns (nodes: seq<Digest>)
    requires |leaves| > 0
    ensures FlatTree(nodes, Layer(leaves), Height(|leaves|), {})
    ensures var count := Pow2(Height(|leaves|));
            && (forall i :: 0 <= i < count - 1 ==> HashesChildren(nodes, i))
            && (forall j :: 0 <= j < count ==> HashesLeaf(nodes[count - 1 + j], LeafAt(leaves, j)))
  {
    hide HashInternal, HashLeaf, Height, Pow2, Matches;
    var count := Pow2(Height(|leaves|));
    var filled := FillLeaves(leaves, count);
    nodes := HashUp(filled, count);
    forall j | 0 <= j < count ensures nodes[count - 1 + j] == Layer(leaves)[j] {
      assert nodes[count - 1..][j] == filled[count - 1..][j];
    }
    BuiltHashes(nodes, leaves);
    hide HashesChildren, HashesLeaf;
  }

  // ---------------------------------------------------------------------------------
  // Proofs

  /** The ancestor of leaf `k`, `t` levels up. */
  function Ancestor(k: nat, t: nat): (j: nat) {
    if t == 0 then k else Ancestor(k, t - 1) / 2
  }

  lemma {:induction false} AncestorInRange(k: nat, h: nat, t: nat)
    requires k < Pow2(h) && t <= h
    ensures Ancestor(k, t) < Pow2(h - t)
  {
    if t == 0 {
    } else {
      AncestorInRange(k, h, t - 1);
    }
  }

  function SiblingOf(j: nat): (r: nat) {
    if j % 2 == 0 then j + 1 else j - 1
  }

  lemma {:induction false} SiblingInRange(j: nat, d: nat)
    requires d > 0 && j < Pow2(d)
    ensures SiblingOf(j) < Pow2(d)
  {
  }

  /** Entry `t` of a proof for leaf `k`: the sibling of its ancestor at that level and
      whether the ancestor is the right child. */
  ghost predicate HonestAt(layer: seq<Digest>, h: nat, k: nat, sibling: Digest, isRight: bool, t: nat)
    requires |layer| == Pow2(h) && k < Pow2(h) && t < h
  {
    AncestorInRange(k, h, t);
    SiblingInRange(Ancestor(k, t), h - t);
    isRight == (Ancestor(k, t) % 2 == 1) && sibling == Node(layer, h, h - t, SiblingOf(Ancestor(k, t)))
  }

  /** The first `n` entries are those of leaf `k`. */
  ghost predicate Honest(layer: seq<Digest>, h: nat, k: nat, siblings: seq<Digest>, path: seq<bool>, n: nat)
    requires |layer| == Pow2(h) && k < Pow2(h)
  {
    && n <= h && n <= |siblings| && n <= |path|
    && forall t :: 0 <= t < n ==> HonestAt(layer, h, k, siblings[t], path[t], t)
  }

  /** Hashing a value up the first `n` levels of a proof. */
  function Climb(start: Digest, siblings: seq<Digest>, path: seq<bool>, n: nat): (r: Digest)
    requires n <= |siblings| && n <= |path|
  {
    if n == 0 then start else
      var c := Climb(start, siblings, path, n - 1);
      if path[n - 1] then HashInternal(siblings[n - 1], c) else HashInternal(c, siblings[n - 1])
  }

  /** Completeness: an honest proof leads from its leaf to the ancestor, level by level. */
  lemma {:induction false} HonestClimbs(layer: seq<Digest>, h: nat, k: nat, siblings: seq<Digest>, path: seq<bool>,
      n: nat)
    requires |layer| == Pow2(h) && k < Pow2(h) && Honest(layer, h, k, siblings, path, n)
    ensures Ancestor(k, n) < Pow2(h - n)
    ensures Climb(layer[k], siblings, path, n) == Node(layer, h, h - n, Ancestor(k, n))
  {
    AncestorInRange(k, h, n);
    if n == 0 {
    } else {
      HonestClimbs(layer, h, k, siblings, path, n - 1);
      assert HonestAt(layer, h, k, siblings[n - 1], path[n - 1], n - 1);
      var j := Ancestor(k, n - 1);
      assert j == 2 * Ancestor(k, n) + (if j % 2 == 1 then 1 else 0);
    }
  }

  predicate IsHashedLeaf(d: Digest) {
    d.Hashed? && |d.input| == 2 && d.input[0] == Octet(0) && d.input[1].Sub?
  }

  ghost predicate HashedLeaves(layer: seq<Digest>) {
    forall j :: 0 <= j < |layer| ==> IsHashedLeaf(layer[j])
  }

  /** The leaf reached from node `j` by walking a proof's directions downwards. */
  function LeafIndex(j: nat, path: seq<bool>, n: nat): (k: nat)
    requires n <= |path|
    decreases n
  {
    if n == 0 then j else LeafIndex(2 * j + (if path[n - 1] then 1 else 0), path, n - 1)
  }

  lemma {:induction false} LeafNodeIsHashed(layer: seq<Digest>, h: nat, d: nat, j: nat, x: Digest)
    requires |layer| == Pow2(h) && d <= h && j < Pow2(d) && HashedLeaves(layer)
    ensures d < h ==> Node(layer, h, d, j) != HashLeaf(x)
    ensures d == h ==> forall l, r :: Node(layer, h, d, j) != HashInternal(l, r)
  {
    if d < h {
      HashInjective(x, Node(layer, h, d + 1, 2 * j), Node(layer, h, d + 1, 2 * j + 1), x);
    }
  }

  lemma {:induction false} HonestStep(layer: seq<Digest>, h: nat, d: nat, j: nat, k: nat, sibling: Digest,
      isRight: bool, t: nat)
    requires |layer| == Pow2(h) && k < Pow2(h) && t < h && d + 1 == h - t && j < Pow2(d)
    requires Ancestor(k, t) == 2 * j + (if isRight then 1 else 0)
    requires sibling == Node(layer, h, d + 1, if isRight then 2 * j else 2 * j + 1)
    ensures HonestAt(layer, h, k, sibling, isRight, t)
  {
  }

  /** Soundness: whatever climbs from a hashed leaf to a node of the tree, in however many
      steps, is the honest proof of a leaf of the tree that holds that value. */
  lemma {:induction false} ClimbIsHonest(layer: seq<Digest>, h: nat, d: nat, j: nat, x: Digest, siblings: seq<Digest>,
      path: seq<bool>, n: nat)
    requires |layer| == Pow2(h) && d <= h && j < Pow2(d) && HashedLeaves(layer)
    requires n <= |siblings| && n <= |path|
    requires Climb(HashLeaf(x), siblings, path, n) == Node(layer, h, d, j)
    ensures d + n == h
    ensures var k := LeafIndex(j, path, n);
            k < Pow2(h) && layer[k] == HashLeaf(x) && Ancestor(k, n) == j && Honest(layer, h, k, siblings, path, n)
    decreases n
  {
    hide HashInternal, HashLeaf, HashedLeaves, HonestAt;
    LeafNodeIsHashed(layer, h, d, j, x);
    if n == 0 {
    } else {
      var c := Climb(HashLeaf(x), siblings, path, n - 1);
      var left, right := Node(layer, h, d + 1, 2 * j), Node(layer, h, d + 1, 2 * j + 1);
      if path[n - 1] {
        HashInjective(siblings[n - 1], c, left, right);
        ClimbIsHonest(layer, h, d + 1, 2 * j + 1, x, siblings, path, n - 1);
      } else {
        HashInjective(c, siblings[n - 1], left, right);
        ClimbIsHonest(layer, h, d + 1, 2 * j, x, siblings, path, n - 1);
      }
      HonestStep(layer, h, d, j, LeafIndex(j, path, n), siblings[n - 1], path[n - 1], n - 1);
    }
  }

  function Shorter(a: nat, b: nat): (r: nat) {
    if a <= b then a else b
  }

  lemma {:induction false} LayerIsHashed(leaves: seq<Digest>)
    requires |leaves| > 0
    ensures HashedLeaves(Layer(leaves))
  {
  }

  /** The honest proof of position `k`, of full height. */
  ghost predicate Proves(leaves: seq<Digest>, k: nat, siblings: seq<Digest>, path: seq<bool>)
    requires |leaves| > 0
  {
    && k < Pow2(Height(|leaves|))
    && Shorter(|siblings|, |path|) == Height(|leaves|)
    && Honest(Layer(leaves), Height(|leaves|), k, siblings, path, Height(|leaves|))
  }

  lemma {:induction false} HonestAccepted(leaves: seq<Digest>, k: nat, siblings: seq<Digest>, path: seq<bool>)
    requires |leaves| > 0 && Proves(leaves, k, siblings, path)
    ensures Climb(HashLeaf(LeafAt(leaves, k)), siblings, path, Shorter(|siblings|, |path|)) == MerkleRoot(leaves)
  {
    hide HonestAt, HashInternal, HashLeaf;
    HonestClimbs(Layer(leaves), Height(|leaves|), k, siblings, path, Height(|leaves|));
  }

  lemma {:induction false} AcceptedHonest(leaves: seq<Digest>, leaf: Digest, siblings: seq<Digest>, path: seq<bool>)
    returns (k: nat)
    requires |leaves| > 0
    requires Climb(HashLeaf(leaf), siblings, path, Shorter(|siblings|, |path|)) == MerkleRoot(leaves)
    ensures Proves(leaves, k, siblings, path) && LeafAt(leaves, k) == leaf
  {
    hide HonestAt, HashInternal, HashLeaf;
    var n := Shorter(|siblings|, |path|);
    LayerIsHashed(leaves);
    ClimbIsHonest(Layer(leaves), Height(|leaves|), 0, 0, leaf, siblings, path, n);
    k := LeafIndex(0, path, n);
    HashInjective(LeafAt(leaves, k), leaf, leaf, leaf);
  }

  /** A proof is accepted for a leaf exactly when it is the honest proof of a position
      holding that leaf, for every tree size and every proof length. */
  lemma {:induction false} AcceptedIffHonest(leaves: seq<Digest>, leaf: Digest, siblings: seq<Digest>, path: seq<bool>)
    requires |leaves| > 0
    ensures Climb(HashLeaf(leaf), siblings, path, Shorter(|siblings|, |path|)) == MerkleRoot(leaves) <==>
            exists k :: Proves(leaves, k, siblings, path) && LeafAt(leaves, k) == leaf
  {
    hide Proves, MerkleRoot, Climb, HashLeaf;
    if Climb(HashLeaf(leaf), siblings, path, Shorter(|siblings|, |path|)) == MerkleRoot(leaves) {
      var k := AcceptedHonest(leaves, leaf, siblings, path);
    }
    if k :| Proves(leaves, k, siblings, path) && LeafAt(leaves, k) == leaf {
      HonestAccepted(leaves, k, siblings, path);
    }
  }

  // ---------------------------------------------------------------------------------
  // The walk that produces a proof, and the one that checks it

  /** Collects the siblings on the way from array position `start` to the root. */
  method CollectSiblings(nodes: seq<Digest>, start: nat, ghost layer: seq<Digest>, ghost h: nat, ghost k: nat)
    returns (siblings: seq<Digest>, path: seq<bool>)
    requires FlatTree(nodes, layer, h, {}) && k < Pow2(h) && start == Pow2(h) - 1 + k
    ensures |siblings| == |path| == h && Honest(layer, h, k, siblings, path, h)
  {
    hide HonestAt;
    siblings, path := [], [];
    var pos := start;
    ghost var t := 0;
    while pos > 0
      invariant t <= h && |siblings| == |path| == t
      invariant pos == Pow2(h - t) - 1 + Ancestor(k, t) && Ancestor(k, t) < Pow2(h - t)
      invariant Honest(layer, h, k, siblings, path, t)
      decreases pos
    {
      WalkStep(nodes, layer, h, k, t, pos);
      var sibling := if pos % 2 == 1 then pos + 1 else pos - 1;
      siblings := siblings + [nodes[sibling]];
      path := path + [pos % 2 == 0];
      pos, t := (pos - 1) / 2, t + 1;
    }
    Pow2IsOne(h - t);
  }

  lemma {:induction false} Pow2IsOne(n: nat)
    ensures Pow2(n) == 1 <==> n == 0
  {
  }

  /** One level of the walk: parity of the position tells left from right. */
  lemma {:induction false} WalkStep(nodes: seq<Digest>, layer: seq<Digest>, h: nat, k: nat, t: nat, pos: nat)
    requires FlatTree(nodes, layer, h, {}) && k < Pow2(h) && t <= h
    requires pos > 0 && pos == Pow2(h - t) - 1 + Ancestor(k, t) && Ancestor(k, t) < Pow2(h - t)
    ensures t < h
    ensures var sibling := if pos % 2 == 1 then pos + 1 else pos - 1;
            sibling < |nodes| && HonestAt(layer, h, k, nodes[sibling], pos % 2 == 0, t)
    ensures (pos - 1) / 2 == Pow2(h - t - 1) - 1 + Ancestor(k, t + 1) && Ancestor(k, t + 1) < Pow2(h - t - 1)
  {
    hide Node, FlatTree;
    var d, j := h - t, Ancestor(k, t);
    Pow2IsOne(d);
    ParityStep(Pow2(d - 1), j, pos);
    SiblingInRange(j, d);
    FlatNode(nodes, layer, h, d, SiblingOf(j));
  }

  lemma {:induction false} ParityStep(p: nat, j: nat, pos: nat)
    requires p > 0 && pos > 0 && pos == 2 * p - 1 + j && j < 2 * p
    ensures pos % 2 == 1 <==> j % 2 == 0
    ensures (if pos % 2 == 1 then pos + 1 else pos - 1) == 2 * p - 1 + SiblingOf(j)
    ensures (pos - 1) / 2 == p - 1 + j / 2 && j / 2 < p
  {
  }

  /** Climbs the zipped proof from the hashed leaf. */
  method VerifyPath(root: Digest, leaf: Digest, siblings: seq<Digest>, path: seq<bool>) returns (ok: bool)
    ensures ok <==> Climb(HashLeaf(leaf), siblings, path, Shorter(|siblings|, |path|)) == root
  {
    var current := HashLeaf(leaf);
    for t := 0 to Shorter(|siblings|, |path|)
      invariant current == Climb(HashLeaf(leaf), siblings, path, t)
    {
      current := if path[t] then HashInternal(siblings[t], current) else HashInternal(current, siblings[t]);
    }
    ok := current == root;
  }

  // ---------------------------------------------------------------------------------
  // The immutable tree over a list of leaves

  datatype MerkleTree = MerkleTree(nodes: seq<Digest>, leafCount: nat)
  datatype MerkleProof = MerkleProof(hashes: seq<Digest>, path: seq<bool>)

  ghost predicate TreeOf(t: MerkleTree, leaves: seq<Digest>) {
    && t.leafCount == |leaves|
    && if |leaves| == 0 then t.nodes == [ZeroDigest] else FlatTree(t.nodes, Layer(leaves), Height(|leaves|), {})
  }

  method NewTree(leaves: seq<Digest>) returns (t: MerkleTree)
    ensures TreeOf(t, leaves)
    ensures |t.nodes| > 0 && t.nodes[0] == MerkleRoot(leaves)
  {
    if |leaves| == 0 {
      return MerkleTree([ZeroDigest], 0);
    }
    var nodes := BuildNodes(leaves);
    FlatNode(nodes, Layer(leaves), Height(|leaves|), 0, 0);
    t := MerkleTree(nodes, |leaves|);
  }

  /** A proof for each leaf and for nothing else. */
  method ProveLeaf(t: MerkleTree, index: nat, ghost leaves: seq<Digest>) returns (r: Option<MerkleProof>)
    requires TreeOf(t, leaves)
    ensures r.Some? <==> index < |leaves|
    ensures r.Some? ==> Proves(leaves, index, r.value.hashes, r.value.path)
  {
    if index >= t.leafCount {
      return None;
    }
    var padded := (|t.nodes| + 1) / 2;
    var hashes, path := CollectSiblings(t.nodes, padded - 1 + index, Layer(leaves), Height(|leaves|), index);
    r := Some(MerkleProof(hashes, path));
  }
}
