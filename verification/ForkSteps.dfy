/** One step of each loop in consensus/src/fork_choice.rs: walking up a chain, walking down to
    the heaviest leaf, collecting a subtree, pruning, and reconnecting orphans. */
module ForkSteps {
  import opened Crypto
  import opened ForkTrees
  import opened Sums
  import opened ForkStakes

  // ---------------------------------------------------------------------------------
  // Walking up a chain

  /** The vote with only the nodes of `done` credited so far. */
  ghost function VotePart(nodes: Nodes, slot: nat, voter: Address, stake: nat, done: set<nat>): (r: Nodes)
    requires slot in nodes
  {
    map n | n in nodes ::
      var own := if n == slot then OwnVote(nodes[n], voter, stake) else nodes[n];
      if n in done then CreditNode(own, stake) else own
  }

  /** `done` is the part of the chain of `slot` that lies below `current`. */
  ghost predicate ChainDone(nodes: Nodes, slot: nat, current: Option<nat>, done: set<nat>)
    requires ParentsBelow(nodes)
  {
    && (current.Some? ==> IsAncestor(nodes, current.value, slot))
    && forall n :: n in nodes ==>
         (n in done <==> IsAncestor(nodes, n, slot) && !(current.Some? && IsAncestor(nodes, n, current.value)))
  }

  lemma {:induction false} ChainStart(nodes: Nodes, slot: nat, voter: Address, stake: nat)
    requires ParentsBelow(nodes) && slot in nodes
    ensures ChainDone(nodes, slot, Some(slot), {})
    ensures VotePart(nodes, slot, voter, stake, {}) == nodes[slot := OwnVote(nodes[slot], voter, stake)]
  {
  }

  lemma {:induction false} VotePartStep(nodes: Nodes, slot: nat, voter: Address, stake: nat, done: set<nat>, n: nat)
    requires slot in nodes && n in nodes && n !in done
    ensures var t := VotePart(nodes, slot, voter, stake, done);
            && n in t && t[n].parent == nodes[n].parent
            && t[n := CreditNode(t[n], stake)] == VotePart(nodes, slot, voter, stake, done + {n})
  {
  }

  /** Everything one vote keeps. */
  lemma {:induction false} VoteKeeps(nodes: Nodes, root: nat, voted: map<Address, nat>, weight: map<Address, nat>,
      credit: map<nat, set<Address>>, slot: nat, voter: Address, stake: nat)
    requires Shape(nodes, root) && Accounted(nodes, voted, weight, credit) && slot in nodes && voter !in voted
    ensures credit.Keys == nodes.Keys && Shape(Vote(nodes, slot, voter, stake), root)
    ensures Accounted(Vote(nodes, slot, voter, stake), voted[voter := slot], weight[voter := stake],
              CreditVote(nodes, credit, slot, voter))
    ensures Bounded(nodes, credit) ==> Bounded(Vote(nodes, slot, voter, stake), CreditVote(nodes, credit, slot, voter))
    ensures Exact(nodes, credit) ==> Exact(Vote(nodes, slot, voter, stake), CreditVote(nodes, credit, slot, voter))
    ensures NoOrphans(nodes, root) ==> NoOrphans(Vote(nodes, slot, voter, stake), root)
  {
    CreditKeys(nodes, voted, weight, credit);
    hide Accounted, NoOrphans, Exact, Bounded, ChildrenLinked, FlagsAgree, Vote, CreditVote, SameLinks;
    VoteAccounts(nodes, voted, weight, credit, slot, voter, stake);
    VoteLinks(nodes, slot, voter, stake);
    SameLinksShape(nodes, Vote(nodes, slot, voter, stake), root);
    SameLinksNoOrphans(nodes, Vote(nodes, slot, voter, stake), root);
    VoteKeepsCredit(nodes, credit, slot, voter, stake);
  }

  lemma {:induction false} ChainStep(nodes: Nodes, slot: nat, current: nat, done: set<nat>)
    requires ParentsBelow(nodes) && current in nodes && ChainDone(nodes, slot, Some(current), done)
    ensures current !in done
    ensures ChainDone(nodes, slot, nodes[current].parent, done + {current})
  {
    if nodes[current].parent.Some? {
      var p := nodes[current].parent.value;
      assert IsAncestor(nodes, p, current);
      AncestorTransitive(nodes, p, current, slot);
      if IsAncestor(nodes, current, p) { AncestorBelow(nodes, current, p); }
    }
  }

  lemma {:induction false} ChainEnd(nodes: Nodes, slot: nat, voter: Address, stake: nat, current: Option<nat>,
      done: set<nat>)
    requires ParentsBelow(nodes) && slot in nodes && ChainDone(nodes, slot, current, done)
    requires current.Some? ==> current.value !in nodes
    ensures VotePart(nodes, slot, voter, stake, done) == Vote(nodes, slot, voter, stake)
  {
  }

  // ---------------------------------------------------------------------------------
  // Choosing the heaviest child

  /** Order by subtree stake, then by block hash. */
  predicate AtMost(a: Node, b: Node) {
    a.subtreeStake < b.subtreeStake || (a.subtreeStake == b.subtreeStake && a.blockHash <= b.blockHash)
  }

  /** Entry `k` is the last of the greatest children. */
  ghost predicate Heaviest(nodes: Nodes, children: seq<nat>, k: nat) {
    && k < |children| && (forall i :: 0 <= i < |children| ==> children[i] in nodes)
    && (forall i :: 0 <= i < |children| ==> AtMost(nodes[children[i]], nodes[children[k]]))
    && (forall i :: k < i < |children| ==> !AtMost(nodes[children[k]], nodes[children[i]]))
  }

  /** `path` starts at `from`, goes from each node to its heaviest child and stops at a
      node without children. */
  ghost predicate HeaviestPath(nodes: Nodes, from: nat, path: seq<nat>) {
    && |path| > 0 && path[0] == from
    && (forall i :: 0 <= i < |path| ==> path[i] in nodes)
    && (forall i :: 0 <= i < |path| - 1 ==> HeaviestStep(nodes, path[i], path[i + 1]))
    && nodes[path[|path| - 1]].children == []
  }

  ghost predicate HeaviestStep(nodes: Nodes, n: nat, next: nat) {
    && n in nodes
    && exists k :: 0 <= k < |nodes[n].children| && nodes[n].children[k] == next && Heaviest(nodes, nodes[n].children, k)
  }

  /** `next` is a child of `n` that has at least the stake of every other child, and of those
      with the same stake the highest block hash. */
  ghost predicate Outweighs(nodes: Nodes, n: nat, next: nat) {
    && n in nodes && next in nodes[n].children && next in nodes
    && forall c :: c in nodes[n].children ==>
         && c in nodes && nodes[c].subtreeStake <= nodes[next].subtreeStake
         && (nodes[c].subtreeStake == nodes[next].subtreeStake ==> nodes[c].blockHash <= nodes[next].blockHash)
  }

  lemma {:induction false} StepOutweighs(nodes: Nodes, n: nat, next: nat)
    requires HeaviestStep(nodes, n, next)
    ensures Outweighs(nodes, n, next)
  {
    var cs := nodes[n].children;
    var k :| 0 <= k < |cs| && cs[k] == next && Heaviest(nodes, cs, k);
    forall c | c in cs
      ensures c in nodes && nodes[c].subtreeStake <= nodes[next].subtreeStake
      ensures nodes[c].subtreeStake == nodes[next].subtreeStake ==> nodes[c].blockHash <= nodes[next].blockHash
    {
      var i :| 0 <= i < |cs| && cs[i] == c;
      assert AtMost(nodes[cs[i]], nodes[cs[k]]);
    }
  }

  lemma {:induction false} HeaviestOutweighs(nodes: Nodes, from: nat, path: seq<nat>)
    requires HeaviestPath(nodes, from, path)
    ensures forall i :: 0 <= i < |path| - 1 ==> Outweighs(nodes, path[i], path[i + 1])
  {
    hide Outweighs, HeaviestStep;
    forall i | 0 <= i < |path| - 1 ensures Outweighs(nodes, path[i], path[i + 1]) {
      StepOutweighs(nodes, path[i], path[i + 1]);
    }
  }

  /** The stake voted on a node and below it, before any cap. */
  ghost function VotedStake(nodes: Nodes, weight: map<Address, nat>, n: nat): (r: nat)
    requires ParentsBelow(nodes) && VotersBelow(nodes, n) <= weight.Keys
  {
    StakeSum(weight, VotersBelow(nodes, n))
  }

  /** Two children of a node share no voter, so together they have at most its stake. */
  lemma {:induction false} SiblingStakes(nodes: Nodes, root: nat, voted: map<Address, nat>, weight: map<Address, nat>,
      credit: map<nat, set<Address>>, p: nat, c: nat, d: nat)
    requires Shape(nodes, root) && Accounted(nodes, voted, weight, credit) && Exact(nodes, credit)
    requires p in nodes && c in nodes[p].children && d in nodes[p].children && c != d
    ensures forall n :: n in nodes ==> VotersBelow(nodes, n) <= weight.Keys
    ensures VotedStake(nodes, weight, c) + VotedStake(nodes, weight, d) <= VotedStake(nodes, weight, p)
  {
    hide StakeSum, FlagsAgree, Capped;
    forall n | n in nodes ensures VotersBelow(nodes, n) <= weight.Keys {
      assert NodeAccounted(n, nodes[n], voted, weight, credit[n]);
    }
    hide NodeAccounted, Accounted;
    SiblingsConflict(nodes, root, p, c, d);
    SiblingVoters(nodes, voted, weight, credit, p, c, d);
    var below, mine, others := VotersBelow(nodes, p), VotersBelow(nodes, c), VotersBelow(nodes, d);
    hide VotersBelow, Exact;
    StakeSumUnion(weight, mine, others);
    StakeSumUnion(weight, mine + others, below - (mine + others));
    assert mine + others + (below - (mine + others)) == below;
  }

  lemma {:induction false} SiblingsConflict(nodes: Nodes, root: nat, p: nat, c: nat, d: nat)
    requires Shape(nodes, root) && p in nodes && c in nodes[p].children && d in nodes[p].children && c != d
    ensures c in nodes && d in nodes && IsAncestor(nodes, p, c) && IsAncestor(nodes, p, d)
    ensures !IsAncestor(nodes, c, d) && !IsAncestor(nodes, d, c)
  {
    assert nodes[c].parent == Some(p) && nodes[d].parent == Some(p);
    if IsAncestor(nodes, c, d) { AncestorBelow(nodes, c, p); }
    if IsAncestor(nodes, d, c) { AncestorBelow(nodes, d, p); }
  }

  lemma {:induction false} SiblingVoters(nodes: Nodes, voted: map<Address, nat>, weight: map<Address, nat>,
      credit: map<nat, set<Address>>, p: nat, c: nat, d: nat)
    requires ParentsBelow(nodes) && Accounted(nodes, voted, weight, credit)
    requires IsAncestor(nodes, p, c) && IsAncestor(nodes, p, d)
    requires !IsAncestor(nodes, c, d) && !IsAncestor(nodes, d, c)
    ensures VotersBelow(nodes, c) !! VotersBelow(nodes, d)
    ensures VotersBelow(nodes, c) + VotersBelow(nodes, d) <= VotersBelow(nodes, p)
  {
    forall v | v in VotersBelow(nodes, c) ensures v !in VotersBelow(nodes, d) && v in VotersBelow(nodes, p) {
      var m :| m in nodes && IsAncestor(nodes, c, m) && v in nodes[m].voters;
      assert NodeAccounted(m, nodes[m], voted, weight, credit[m]);
      AncestorTransitive(nodes, p, c, m);
      if v in VotersBelow(nodes, d) {
        var k :| k in nodes && IsAncestor(nodes, d, k) && v in nodes[k].voters;
        assert NodeAccounted(k, nodes[k], voted, weight, credit[k]);
        assert k == m;
        if c <= d { ChainLinear(nodes, c, d, m); } else { ChainLinear(nodes, d, c, m); }
      }
    }
    forall v | v in VotersBelow(nodes, d) ensures v in VotersBelow(nodes, p) {
      var m :| m in nodes && IsAncestor(nodes, d, m) && v in nodes[m].voters;
      AncestorTransitive(nodes, p, d, m);
    }
  }

  /** A child with more than half of the stake voted below its parent is the one taken, unless
      the others could reach the cap of 64 bits as well. */
  lemma {:induction false} MajorityTaken(nodes: Nodes, root: nat, voted: map<Address, nat>, weight: map<Address, nat>,
      credit: map<nat, set<Address>>, p: nat, next: nat, c: nat)
    requires Shape(nodes, root) && Accounted(nodes, voted, weight, credit) && Exact(nodes, credit)
    requires Outweighs(nodes, p, next) && c in nodes[p].children
    requires forall n :: n in nodes ==> VotersBelow(nodes, n) <= weight.Keys
    requires 2 * VotedStake(nodes, weight, c) > VotedStake(nodes, weight, p)
    requires VotedStake(nodes, weight, p) - VotedStake(nodes, weight, c) < U64_MAX
    ensures next == c
  {
    assert NodeAccounted(c, nodes[c], voted, weight, credit[c]);
    assert NodeAccounted(next, nodes[next], voted, weight, credit[next]);
    hide StakeSum, VotersBelow;
    if next != c {
      SiblingStakes(nodes, root, voted, weight, credit, p, c, next);
    }
  }

  /** There is one heaviest path, so the best fork is determined by the tree alone. */
  lemma {:induction false} HeaviestPathUnique(nodes: Nodes, from: nat, p: seq<nat>, q: seq<nat>)
    requires HeaviestPath(nodes, from, p) && HeaviestPath(nodes, from, q)
    ensures p == q
    decreases |p|
  {
    HeaviestPathGoesOn(nodes, from, p);
    HeaviestPathGoesOn(nodes, from, q);
    if |p| == 1 {
    } else {
      assert HeaviestStep(nodes, p[0], p[1]) && HeaviestStep(nodes, q[0], q[1]);
      HeaviestChildUnique(nodes, from, p[1], q[1]);
      HeaviestPathTail(nodes, from, p);
      HeaviestPathTail(nodes, from, q);
      HeaviestPathUnique(nodes, p[1], p[1..], q[1..]);
      assert p == [from] + p[1..] && q == [from] + q[1..];
    }
  }

  lemma {:induction false} HeaviestPathGoesOn(nodes: Nodes, from: nat, p: seq<nat>)
    requires HeaviestPath(nodes, from, p)
    ensures |p| == 1 <==> nodes[from].children == []
  {
    if |p| > 1 { assert HeaviestStep(nodes, p[0], p[1]); }
  }

  lemma {:induction false} HeaviestPathTail(nodes: Nodes, from: nat, p: seq<nat>)
    requires HeaviestPath(nodes, from, p) && |p| > 1
    ensures HeaviestPath(nodes, p[1], p[1..])
  {
    var t := p[1..];
    forall i | 0 <= i < |t| - 1 ensures HeaviestStep(nodes, t[i], t[i + 1]) {
      assert HeaviestStep(nodes, p[i + 1], p[i + 2]);
    }
  }

  lemma {:induction false} HeaviestChildUnique(nodes: Nodes, n: nat, a: nat, b: nat)
    requires HeaviestStep(nodes, n, a) && HeaviestStep(nodes, n, b)
    ensures a == b
  {
    var cs := nodes[n].children;
    var i :| 0 <= i < |cs| && cs[i] == a && Heaviest(nodes, cs, i);
    var j :| 0 <= j < |cs| && cs[j] == b && Heaviest(nodes, cs, j);
    assert AtMost(nodes[cs[i]], nodes[cs[j]]) && AtMost(nodes[cs[j]], nodes[cs[i]]);
  }

  /** The heaviest path stays in the subtree listed under its start. */
  lemma {:induction false} HeaviestPathListed(nodes: Nodes, from: nat, p: seq<nat>, i: nat)
    requires ParentsBelow(nodes) && ChildrenLinked(nodes) && HeaviestPath(nodes, from, p) && i < |p|
    ensures Listed(nodes, from, p[i])
    decreases i
  {
    if i == 0 {
    } else {
      HeaviestPathListed(nodes, from, p, i - 1);
      assert HeaviestStep(nodes, p[i - 1], p[i - 1 + 1]);
      var cs := nodes[p[i - 1]].children;
      var k :| 0 <= k < |cs| && cs[k] == p[i] && Heaviest(nodes, cs, k);
      assert nodes[cs[k]].parent == Some(p[i - 1]);
    }
  }

  /** The slots a walk down from `s` can still visit. */
  ghost function Above(nodes: Nodes, s: nat): (r: set<nat>) {
    set n | n in nodes && n > s
  }

  // ---------------------------------------------------------------------------------
  // Pruning

  /** No proper ancestor of `r` hangs below it. */
  lemma {:induction false} AncestorsUnlisted(nodes: Nodes, r: nat)
    requires ParentsBelow(nodes)
    ensures Listed(nodes, r, r)
    ensures forall a: nat :: IsAncestor(nodes, a, r) && Listed(nodes, r, a) ==> a == r
    ensures forall a: nat :: Listed(nodes, r, a) ==> r <= a
  {
    assert Listed(nodes, r, r);
    hide IsAncestor, Listed;
    forall a: nat | Listed(nodes, r, a) ensures r <= a {
      SurvivorAbove(nodes, r, a);
    }
    forall a: nat | IsAncestor(nodes, a, r) ensures a <= r {
      AncestorBelow(nodes, a, r);
    }
  }

  lemma {:induction false} PruneAt(nodes: Nodes, r: nat)
    requires ParentsBelow(nodes)
    ensures forall s: nat :: s in Prune(nodes, r) <==> s in nodes && Listed(nodes, r, s)
    ensures forall s: nat :: s in Prune(nodes, r) ==>
              Prune(nodes, r)[s] == if s == r then nodes[s].(parent := None, commitment := Finalized) else nodes[s]
  {
    hide Listed;
  }

  /** Removing everything that is not listed under `r` and detaching `r` is pruning. */
  lemma {:induction false} PrunedIs(nodes: Nodes, r: nat, kept: Nodes)
    requires ParentsBelow(nodes) && r in nodes
    requires forall s :: s in kept && s in nodes ==> kept[s] == nodes[s]
    requires forall s :: s in kept <==> s in nodes && Listed(nodes, r, s)
    ensures r in kept && kept[r := kept[r].(parent := None, commitment := Finalized)] == Prune(nodes, r)
  {
    assert Listed(nodes, r, r);
    PruneAt(nodes, r);
    hide Listed, Prune, ParentsBelow;
    assert kept.Keys == Prune(nodes, r).Keys;
    DetachedIs(nodes, r, kept, Prune(nodes, r));
  }

  lemma {:induction false} DetachedIs(nodes: Nodes, r: nat, kept: Nodes, u: Nodes)
    requires r in nodes && r in kept && kept.Keys == u.Keys <= nodes.Keys
    requires forall s :: s in kept ==> kept[s] == nodes[s]
    requires forall s :: s in u ==>
             u[s] == if s == r then nodes[s].(parent := None, commitment := Finalized) else nodes[s]
    ensures kept[r := kept[r].(parent := None, commitment := Finalized)] == u
  {
    MapsEqual(kept[r := kept[r].(parent := None, commitment := Finalized)], u);
  }

  lemma {:induction false} MapsEqual<V>(t: map<nat, V>, u: map<nat, V>)
    requires forall s :: s in t ==> s in u && t[s] == u[s]
    requires forall s :: s in u ==> s in t
    ensures t == u
  {
  }

  lemma {:induction false} PrunedSlots(nodes: Nodes, r: nat, kept: Nodes, pruned: seq<nat>)
    requires ParentsBelow(nodes) && Removed(nodes, kept, pruned)
    requires forall s :: s in kept <==> s in nodes && Listed(nodes, r, s)
    ensures forall s :: s in pruned <==> s in nodes && !Listed(nodes, r, s)
    ensures forall i, j :: 0 <= i < j < |pruned| ==> pruned[i] != pruned[j]
    ensures forall s :: s in kept && s in nodes ==> kept[s] == nodes[s]
  {
    hide Listed;
    forall s: nat ensures s in pruned <==> s in nodes && !Listed(nodes, r, s) {
      if s in pruned {
        var i :| 0 <= i < |pruned| && pruned[i] == s;
      }
    }
  }

  /** Everything moving the root keeps. */
  lemma {:induction false} PruneKeeps(nodes: Nodes, root: nat, voted: map<Address, nat>, weight: map<Address, nat>,
      credit: map<nat, set<Address>>, r: nat)
    requires Shape(nodes, root) && Accounted(nodes, voted, weight, credit) && r in nodes
    ensures weight.Keys == voted.Keys && Shape(Prune(nodes, r), r)
    ensures Accounted(Prune(nodes, r), KeepVoted(voted, r), KeepWeight(weight, voted, r),
              KeepCredit(credit, Prune(nodes, r).Keys))
    ensures Bounded(nodes, credit) ==>
              (Bounded(Prune(nodes, r), KeepCredit(credit, Prune(nodes, r).Keys))
               <==> CreditPresent(Prune(nodes, r), KeepVoted(voted, r), KeepCredit(credit, Prune(nodes, r).Keys)))
    ensures Bounded(nodes, credit) && VotedListed(nodes, r) ==>
              Bounded(Prune(nodes, r), KeepCredit(credit, Prune(nodes, r).Keys))
    ensures Exact(nodes, credit) ==>
              && (Bounded(Prune(nodes, r), KeepCredit(credit, Prune(nodes, r).Keys)) <==> VotedListed(nodes, r))
              && (Exact(Prune(nodes, r), KeepCredit(credit, Prune(nodes, r).Keys)) <==> VotedListed(nodes, r))
    ensures NoOrphans(nodes, root) && Exact(nodes, credit) ==>
              NoOrphans(Prune(nodes, r), r) && Exact(Prune(nodes, r), KeepCredit(credit, Prune(nodes, r).Keys))
  {
    CreditKeys(nodes, voted, weight, credit);
    hide Accounted, NoOrphans, Exact, Bounded, CreditPresent, ChildrenLinked, FlagsAgree, VotedListed, Listed;
    hide IsAncestor, Prune;
    if Bounded(nodes, credit) {
      PruneBoundedIff(nodes, root, voted, weight, credit, r);
    }
    if Exact(nodes, credit) {
      PruneExactIff(nodes, root, voted, weight, credit, r);
    }
    PruneShape(nodes, root, r);
    PruneAccounts(nodes, root, voted, weight, credit, r);
    PruneNoOrphans(nodes, root, r);
    if NoOrphans(nodes, root) {
      NoOrphansAllListed(nodes, root, r);
      ListedVotes(nodes, r);
    }
    if VotedListed(nodes, r) {
      PruneKeepsCredit(nodes, root, credit, r);
    }
  }

  lemma {:induction false} ListedVotes(nodes: Nodes, r: nat)
    requires ParentsBelow(nodes) && AllListed(nodes, r)
    ensures VotedListed(nodes, r)
  {
  }

  /** `kept` is `nodes` without the slots of `pruned`, which are distinct. */
  ghost predicate Removed(nodes: Nodes, kept: Nodes, pruned: seq<nat>) {
    && (forall s :: s in kept <==> s in nodes && s !in pruned)
    && (forall s :: s in kept ==> kept[s] == nodes[s])
    && (forall i :: 0 <= i < |pruned| ==> pruned[i] in nodes)
    && (forall i, j :: 0 <= i < j < |pruned| ==> pruned[i] != pruned[j])
  }

  lemma {:induction false} RemoveOne(nodes: Nodes, kept: Nodes, pruned: seq<nat>, s: nat)
    requires Removed(nodes, kept, pruned) && s in kept
    ensures Removed(nodes, kept - {s}, pruned + [s])
  {
    var more := pruned + [s];
    forall i, j | 0 <= i < j < |more| ensures more[i] != more[j] {
      assert more[i] == pruned[i];
    }
    forall x ensures x in more <==> x in pruned || x == s {
      if x in pruned {
        var i :| 0 <= i < |pruned| && pruned[i] == x;
        assert more[i] == x;
      }
      assert more[|pruned|] == s;
    }
  }

  // ---------------------------------------------------------------------------------
  // Depth-first collection

  /** Everything seen is listed under `r`, and the part of the subtree not yet collected
      hangs below the stack. */
  ghost predicate Collecting(nodes: Nodes, r: nat, stack: seq<nat>, reached: set<nat>)
    requires ParentsBelow(nodes)
  {
    && (forall s :: s in reached ==> s in nodes && Listed(nodes, r, s))
    && (forall i :: 0 <= i < |stack| ==> stack[i] in nodes && Listed(nodes, r, stack[i]) && stack[i] !in reached)
    && (forall i, j :: 0 <= i < j < |stack| ==> stack[i] != stack[j])
    && (r in reached || r in stack)
    && (forall s, i :: s in reached && 0 <= i < |nodes[s].children| ==>
          nodes[s].children[i] in reached || nodes[s].children[i] in stack)
    && (forall s :: s in nodes && s != r && (s in reached || s in stack) ==> ParentIn(nodes, s, reached))
  }

  ghost predicate ParentIn(nodes: Nodes, s: nat, reached: set<nat>) {
    s in nodes && nodes[s].parent.Some? && nodes[s].parent.value in reached
  }

  lemma {:induction false} CollectStart(nodes: Nodes, r: nat)
    requires ParentsBelow(nodes) && r in nodes
    ensures Collecting(nodes, r, [r], {})
  {
  }

  lemma {:induction false} CollectedMembers(stack: seq<nat>, children: seq<nat>)
    requires |stack| > 0
    ensures forall x :: x in stack[..|stack| - 1] + children <==> x in stack[..|stack| - 1] || x in children
    ensures forall x :: x in stack <==> x in stack[..|stack| - 1] || x == stack[|stack| - 1]
  {
    assert stack == stack[..|stack| - 1] + [stack[|stack| - 1]];
  }

  lemma {:induction false} CollectDistinct(nodes: Nodes, root: nat, r: nat, stack: seq<nat>, reached: set<nat>)
    requires Shape(nodes, root) && Collecting(nodes, r, stack, reached) && |stack| > 0
    ensures var s := stack[|stack| - 1];
            var next := stack[..|stack| - 1] + nodes[s].children;
            && (forall i :: 0 <= i < |next| ==>
                next[i] in nodes && Listed(nodes, r, next[i]) && next[i] !in reached + {s})
            && (forall i, j :: 0 <= i < j < |next| ==> next[i] != next[j])
  {
    var s := stack[|stack| - 1];
    var rest, cs := stack[..|stack| - 1], nodes[s].children;
    forall i | 0 <= i < |cs|
      ensures cs[i] in nodes && Listed(nodes, r, cs[i]) && cs[i] !in reached + {s} && cs[i] !in rest
    {
      ListedChild(nodes, r, s, i);
      assert !ParentIn(nodes, cs[i], reached);
    }
    forall i | 0 <= i < |rest| ensures rest[i] != s && rest[i] in stack { assert rest[i] == stack[i]; }
  }

  lemma {:induction false} CollectStep(nodes: Nodes, root: nat, r: nat, stack: seq<nat>, reached: set<nat>)
    requires Shape(nodes, root) && Collecting(nodes, r, stack, reached) && |stack| > 0
    ensures var s := stack[|stack| - 1];
            s in nodes && s !in reached && Collecting(nodes, r, stack[..|stack| - 1] + nodes[s].children, reached + {s})
  {
    hide FlagsAgree, Listed;
    var s := stack[|stack| - 1];
    var cs := nodes[s].children;
    CollectedMembers(stack, cs);
    CollectDistinct(nodes, root, r, stack, reached);
  }

  lemma {:induction false} CollectedExactly(nodes: Nodes, r: nat, reached: set<nat>)
    requires ParentsBelow(nodes) && Collecting(nodes, r, [], reached)
    ensures forall s :: s in reached <==> s in nodes && Listed(nodes, r, s)
  {
    hide Listed;
    forall s | s in nodes && Listed(nodes, r, s) ensures s in reached {
      CollectEnd(nodes, r, reached, s);
    }
  }

  lemma {:induction false} CollectEnd(nodes: Nodes, r: nat, reached: set<nat>, s: nat)
    requires ParentsBelow(nodes) && Collecting(nodes, r, [], reached) && Listed(nodes, r, s) && s in nodes
    ensures s in reached
    decreases s
  {
    if s == r {
    } else {
      var p := nodes[s].parent.value;
      CollectEnd(nodes, r, reached, p);
      var i :| 0 <= i < |nodes[p].children| && nodes[p].children[i] == s;
    }
  }

  // ---------------------------------------------------------------------------------
  // Reconnecting orphans

  /** The parent chain of `s` reaches a connected node without leaving the tree. */
  ghost predicate Connects(nodes: Nodes, s: nat)
    requires ParentsBelow(nodes)
    decreases s
  {
    s in nodes && (nodes[s].connected || (nodes[s].parent.Some? && Connects(nodes, nodes[s].parent.value)))
  }

  /** `now` differs from `was` only in slots that joined: their flag, and their entry at the
      end of a child list. */
  ghost predicate Relinked(was: Nodes, now: Nodes)
    requires ParentsBelow(was)
  {
    && was.Keys == now.Keys
    && (forall s :: s in was ==> now[s] == was[s].(connected := now[s].connected, children := now[s].children))
    && (forall s :: s in was ==> was[s].children <= now[s].children)
    && (forall s :: s in was && was[s].connected ==> now[s].connected)
    && (forall s :: s in was && now[s].connected ==> Connects(was, s))
    && (forall s, i :: s in was && |was[s].children| <= i < |now[s].children| ==> Joined(was, now, now[s].children[i]))
  }

  ghost predicate Joined(was: Nodes, now: Nodes, c: nat) {
    c in was && c in now && !was[c].connected && now[c].connected
  }

  /** Connected nodes other than the root are listed by a connected parent. */
  ghost predicate ConnectedListed(nodes: Nodes, root: nat) {
    forall s :: s in nodes && s != root && nodes[s].connected ==>
      && nodes[s].parent.Some? && nodes[s].parent.value in nodes
      && nodes[nodes[s].parent.value].connected && s in nodes[nodes[s].parent.value].children
  }

  /** Every orphan either joined already or waits, once, under its parent's slot. */
  ghost predicate Waiting(was: Nodes, now: Nodes, waiting: map<nat, seq<nat>>) {
    && was.Keys == now.Keys
    && (forall s :: s in was && !was[s].connected && was[s].parent.Some? ==>
          now[s].connected || (was[s].parent.value in waiting && s in waiting[was[s].parent.value]))
    && (forall p, i :: p in waiting && 0 <= i < |waiting[p]| ==> Waits(was, now, p, waiting[p][i]))
    && (forall p, i, j :: p in waiting && 0 <= i < j < |waiting[p]| ==> waiting[p][i] != waiting[p][j])
  }

  ghost predicate Waits(was: Nodes, now: Nodes, p: nat, c: nat) {
    c in was && c in now && was[c].parent == Some(p) && !was[c].connected && !now[c].connected
  }

  /** Connected slots with waiting children are still to be visited. */
  ghost predicate Queued(now: Nodes, waiting: map<nat, seq<nat>>, active: set<nat>) {
    forall p :: p in waiting && waiting[p] != [] && p in now && now[p].connected ==> p in active
  }

  ghost predicate Reconnecting(was: Nodes, root: nat, now: Nodes, waiting: map<nat, seq<nat>>, active: set<nat>)
    requires ParentsBelow(was)
  {
    && Relinked(was, now) && ChildrenLinked(now) && ConnectedListed(now, root)
    && Waiting(was, now, waiting) && Queued(now, waiting, active)
    && forall s :: s in active ==> s in now && now[s].connected
  }

  function Attach(nodes: Nodes, p: nat, c: nat): (r: Nodes)
    requires p in nodes && c in nodes
  {
    var joined := nodes[c := nodes[c].(connected := true)];
    if c in joined[p].children then joined else joined[p := joined[p].(children := joined[p].children + [c])]
  }

  /** A new entry sits at the end of the child list. */
  lemma {:induction false} AttachChildren(nodes: Nodes, p: nat, c: nat)
    requires p in nodes && c in nodes
    ensures var t := Attach(nodes, p, c);
            && t.Keys == nodes.Keys && c in t[p].children
            && (forall s :: s in nodes && s != p ==> t[s].children == nodes[s].children)
            && t[p].children == (if c in nodes[p].children then nodes[p].children else nodes[p].children + [c])
            && (forall s :: s in nodes ==> t[s] == nodes[s].(connected := t[s].connected, children := t[s].children))
            && (forall s :: s in nodes ==> t[s].connected == (nodes[s].connected || s == c))
  {
    var t := Attach(nodes, p, c);
    if c !in nodes[p].children {
      assert t[p].children[|nodes[p].children|] == c;
    }
  }

  lemma {:induction false} AttachRelinked(was: Nodes, now: Nodes, p: nat, c: nat)
    requires ParentsBelow(was) && Relinked(was, now) && p in now && c in now && now[p].connected
    requires Waits(was, now, p, c)
    ensures Relinked(was, Attach(now, p, c))
  {
    hide Attach;
    var t := Attach(now, p, c);
    AttachChildren(now, p, c);
    assert Connects(was, c);
    forall s, i | s in was && |was[s].children| <= i < |t[s].children| ensures Joined(was, t, t[s].children[i]) {
      if i < |now[s].children| {
        assert t[s].children[i] == now[s].children[i];
        assert Joined(was, now, now[s].children[i]);
      }
    }
  }

  lemma {:induction false} AttachLinked(was: Nodes, now: Nodes, p: nat, c: nat)
    requires ParentsBelow(was) && Relinked(was, now) && ChildrenLinked(now) && p in now && c in now
    requires Waits(was, now, p, c)
    ensures ChildrenLinked(Attach(now, p, c))
  {
    hide Attach, Connects;
    var t := Attach(now, p, c);
    AttachChildren(now, p, c);
    forall s, i | s in t && 0 <= i < |t[s].children|
      ensures t[s].children[i] in t && t[t[s].children[i]].parent == Some(s) {
      if i < |now[s].children| { assert t[s].children[i] == now[s].children[i]; }
    }
    forall s, i, j | s in t && 0 <= i < j < |t[s].children| ensures t[s].children[i] != t[s].children[j] {
      assert t[s].children[i] == now[s].children[i];
      if j < |now[s].children| { assert t[s].children[j] == now[s].children[j]; }
    }
  }

  lemma {:induction false} AttachListed(was: Nodes, root: nat, now: Nodes, p: nat, c: nat)
    requires ParentsBelow(was) && Relinked(was, now) && ConnectedListed(now, root) && p in now && c in now
    requires now[p].connected
    requires Waits(was, now, p, c)
    ensures ConnectedListed(Attach(now, p, c), root)
  {
    hide Attach, Connects;
    var t := Attach(now, p, c);
    AttachChildren(now, p, c);
    forall s | s in t && s != root && t[s].connected
      ensures t[s].parent.Some? && t[s].parent.value in t && t[t[s].parent.value].connected
      ensures s in t[t[s].parent.value].children
    {
      if s != c {
        assert s in now[now[s].parent.value].children;
      }
    }
  }

  lemma {:induction false} AttachWaiting(was: Nodes, now: Nodes, waiting: map<nat, seq<nat>>, p: nat)
    requires ParentsBelow(was) && Waiting(was, now, waiting) && p in now && p in waiting && waiting[p] != []
    ensures waiting[p][0] in now
    ensures Waiting(was, Attach(now, p, waiting[p][0]), waiting[p := waiting[p][1..]])
  {
    hide Attach;
    var c, rest := waiting[p][0], waiting[p := waiting[p][1..]];
    assert Waits(was, now, p, c);
    var t := Attach(now, p, c);
    AttachChildren(now, p, c);
    forall s | s in was && !was[s].connected && was[s].parent.Some?
      ensures t[s].connected || (was[s].parent.value in rest && s in rest[was[s].parent.value])
    {
      if !now[s].connected && was[s].parent == Some(p) && s != c {
        assert waiting[p] == [c] + waiting[p][1..];
      }
    }
    forall q, i | q in rest && 0 <= i < |rest[q]| ensures Waits(was, t, q, rest[q][i]) {
      var k := if q == p then i + 1 else i;
      assert rest[q][i] == waiting[q][k];
      assert Waits(was, now, q, waiting[q][k]);
    }
  }

  lemma {:induction false} AttachStep(was: Nodes, root: nat, now: Nodes, waiting: map<nat, seq<nat>>, active: set<nat>,
      p: nat)
    requires ParentsBelow(was) && Reconnecting(was, root, now, waiting, active)
    requires p in active && p in waiting && waiting[p] != []
    ensures var c := waiting[p][0];
            c in now && !now[c].connected &&
                Reconnecting(was, root, Attach(now, p, c), waiting[p := waiting[p][1..]], active + {c})
  {
    hide Attach, Relinked, ChildrenLinked, ConnectedListed;
    var c := waiting[p][0];
    assert Waits(was, now, p, c);
    AttachChildren(now, p, c);
    AttachRelinked(was, now, p, c);
    AttachLinked(was, now, p, c);
    AttachListed(was, root, now, p, c);
    AttachWaiting(was, now, waiting, p);
  }

  ghost function Elements(q: seq<nat>): (r: set<nat>) {
    set i | 0 <= i < |q| :: q[i]
  }

  lemma {:induction false} ElementsFront(q: seq<nat>)
    requires |q| > 0
    ensures Elements(q) == Elements(q[1..]) + {q[0]}
  {
    var rest := q[1..];
    forall i | 0 <= i < |q| ensures q[i] in Elements(rest) + {q[0]} {
      if i > 0 { assert rest[i - 1] == q[i]; }
    }
    forall i | 0 <= i < |rest| ensures rest[i] in Elements(q) {
      assert rest[i] == q[i + 1];
    }
    assert q[0] in Elements(q);
  }

  lemma {:induction false} ElementsBack(q: seq<nat>, c: nat)
    ensures Elements(q + [c]) == Elements(q) + {c}
  {
    var more := q + [c];
    assert more[|q|] == c;
    forall i | 0 <= i < |q| ensures q[i] in Elements(more) { assert more[i] == q[i]; }
  }

  ghost function Disconnected(nodes: Nodes): (r: set<nat>) {
    set s | s in nodes && !nodes[s].connected
  }

  lemma {:induction false} AttachShrinks(nodes: Nodes, p: nat, c: nat)
    requires p in nodes && c in nodes && !nodes[c].connected
    ensures Disconnected(Attach(nodes, p, c)) < Disconnected(nodes)
  {
    AttachChildren(nodes, p, c);
    assert c in Disconnected(nodes) && c !in Disconnected(Attach(nodes, p, c));
  }

  /** A visited slot without waiting children need not be kept. */
  lemma {:induction false} DropVisited(was: Nodes, root: nat, now: Nodes, waiting: map<nat, seq<nat>>, p: nat,
      active: set<nat>)
    requires ParentsBelow(was)
    requires Reconnecting(was, root, now, waiting, active + {p}) && (p in waiting ==> waiting[p] == [])
    ensures Reconnecting(was, root, now, waiting - {p}, active)
  {
    hide Relinked, ChildrenLinked, ConnectedListed;
    var rest := waiting - {p};
    forall s | s in was && !was[s].connected && was[s].parent.Some?
      ensures now[s].connected || (was[s].parent.value in rest && s in rest[was[s].parent.value])
    {
    }
  }

  lemma {:induction false} ReconnectStart(nodes: Nodes, root: nat, waiting: map<nat, seq<nat>>, active: set<nat>)
    requires Shape(nodes, root) && Waiting(nodes, nodes, waiting)
    requires forall s :: s in active <==> s in nodes && nodes[s].connected
    ensures Reconnecting(nodes, root, nodes, waiting, active)
  {
  }

  /** What the pass leaves behind: exactly the nodes whose chain reaches a connected one
      are connected, and the tree is well shaped. */
  lemma {:induction false} ReconnectEnd(was: Nodes, root: nat, now: Nodes, waiting: map<nat, seq<nat>>)
    requires Shape(was, root) && Reconnecting(was, root, now, waiting, {})
    ensures Shape(now, root) && was.Keys == now.Keys
    ensures forall s :: s in was ==> (now[s].connected <==> Connects(was, s))
  {
    forall s | s in was && Connects(was, s) ensures now[s].connected {
      ReconnectReaches(was, root, now, waiting, s);
    }
    assert ParentsBelow(now);
    forall s, i | s in now && 0 <= i < |now[s].children| && now[s].children[i] in now
      ensures now[now[s].children[i]].connected == now[s].connected
    {
      assert now[now[s].children[i]].parent == Some(s);
    }
  }

  lemma {:induction false} ReconnectReaches(was: Nodes, root: nat, now: Nodes, waiting: map<nat, seq<nat>>, s: nat)
    requires Shape(was, root) && Reconnecting(was, root, now, waiting, {}) && Connects(was, s)
    ensures s in now && now[s].connected
    decreases s
  {
    hide ChildrenLinked, FlagsAgree;
    if was[s].connected {
    } else {
      ReconnectReaches(was, root, now, waiting, was[s].parent.value);
    }
  }

  /** Reconnecting changes no parent, no vote and no stake. */
  lemma {:induction false} ReconnectKeepsCredit(was: Nodes, now: Nodes, voted: map<Address, nat>,
      weight: map<Address, nat>, credit: map<nat, set<Address>>)
    requires ParentsBelow(was) && Relinked(was, now) && Accounted(was, voted, weight, credit)
    ensures Accounted(now, voted, weight, credit)
    ensures Bounded(was, credit) ==> Bounded(now, credit)
    ensures Exact(was, credit) ==> Exact(now, credit)
  {
    hide StakeSum, Capped, Connects, VotersBelow;
    forall s | s in now ensures NodeAccounted(s, now[s], voted, weight, credit[s]) {
      assert NodeAccounted(s, was[s], voted, weight, credit[s]);
    }
    assert ParentsBelow(now);
    forall n ensures VotersBelow(was, n) == VotersBelow(now, n) {
      ReconnectVotersBelow(was, now, n);
    }
  }

  lemma {:induction false} ReconnectNoOrphans(was: Nodes, root: nat, now: Nodes)
    requires ParentsBelow(was) && Relinked(was, now)
    ensures NoOrphans(was, root) ==> NoOrphans(now, root)
  {
    hide Connects;
    if NoOrphans(was, root) {
      forall s | s in now && s != root
        ensures now[s].parent.Some? && now[s].parent.value in now && s in now[now[s].parent.value].children
      {
        var p := was[s].parent.value;
        assert was[p].children <= now[p].children;
        var i :| 0 <= i < |was[p].children| && was[p].children[i] == s;
        assert now[p].children[i] == s;
      }
    }
  }

  lemma {:induction false} ReconnectVotersBelow(was: Nodes, now: Nodes, n: nat)
    requires ParentsBelow(was) && ParentsBelow(now) && Relinked(was, now)
    ensures VotersBelow(was, n) == VotersBelow(now, n)
  {
    hide Connects, IsAncestor;
    forall m ensures IsAncestor(was, n, m) <==> IsAncestor(now, n, m) {
      SameParentsAncestor(was, now, n, m);
    }
    assert forall m :: m in was ==> was[m].voters == now[m].voters;
  }

  /** After reconnecting, everything below a connected slot is listed below it. */
  lemma {:induction false} ReconnectedAllListed(was: Nodes, root: nat, now: Nodes, r: nat)
    requires Shape(was, root) && Shape(now, root) && Relinked(was, now) && r in now && now[r].connected
    requires forall s :: s in was ==> (now[s].connected <==> Connects(was, s))
    ensures AllListed(now, r)
  {
    hide Connects;
    forall s | s in now && IsAncestor(now, r, s) ensures Listed(now, r, s) {
      BelowConnected(was, root, now, r, s);
    }
  }

  lemma {:induction false} BelowConnected(was: Nodes, root: nat, now: Nodes, r: nat, s: nat)
    requires Shape(was, root) && Shape(now, root) && Relinked(was, now) && r in now && now[r].connected
    requires forall s :: s in was ==> (now[s].connected <==> Connects(was, s))
    requires s in now && IsAncestor(now, r, s)
    ensures now[s].connected && Listed(now, r, s)
    decreases s
  {
    hide ChildrenLinked;
    if s == r {
    } else {
      var p := now[s].parent.value;
      if p in now {
        BelowConnected(was, root, now, r, p);
        assert Connects(was, p) && was[s].parent == Some(p);
      }
    }
  }
}
