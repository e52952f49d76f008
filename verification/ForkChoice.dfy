/** The fork tree as the validator drives it (consensus/src/fork_choice.rs): the in-place
    operations, each against the value-level step it performs, and whole runs of them. */
module ForkChoice {
  import opened Crypto
  import opened ForkTrees
  import opened Sums
  import opened ForkStakes
  import opened ForkSteps

  class ForkTree {
    var nodes: Nodes
    var rootSlot: nat
    var bestSlot: nat
    var totalActiveStake: U64
    var voted: map<Address, nat>
    /** The stake each recorded voter voted with, and the voters credited to each node. */
    ghost var weight: map<Address, nat>
    ghost var credit: map<nat, set<Address>>

    /** The tree is well linked and every stake is a sum over distinct voters. */
    ghost predicate Valid()
      reads this
    {
      Shape(nodes, rootSlot) && Accounted(nodes, voted, weight, credit)
    }

    /** No node misses its parent and every node is credited with exactly the votes below it. */
    ghost predicate Complete()
      reads this
    {
      Valid() && NoOrphans(nodes, rootSlot) && Exact(nodes, credit)
    }

    constructor (root: nat, blockHash: Address, bankHash: Address)
      ensures Complete() && rootSlot == root && bestSlot == root && totalActiveStake == 0 && voted == map[]
      ensures nodes == map[root := Node(None, blockHash, bankHash, [], 0, 0, true, Finalized, {})]
    {
      nodes := map[root := Node(None, blockHash, bankHash, [], 0, 0, true, Finalized, {})];
      rootSlot, bestSlot, totalActiveStake, voted := root, root, 0, map[];
      weight, credit := map[], map[root := {}];
    }

    /** Adds a slot under its parent, or as an orphan when the parent is missing.  Parents that
        are not lower are added like any other; then chains of parents need not end. */
    method AddSlot(slot: nat, parent: nat, blockHash: Address, bankHash: Address) returns (r: Result<(), ForkError>)
      requires Valid()
      modifies this
      ensures parent < slot || r.Err? ==> Valid()
      ensures rootSlot == old(rootSlot) && bestSlot == old(bestSlot)
      ensures totalActiveStake == old(totalActiveStake) && voted == old(voted) && weight == old(weight)
      ensures r == (if slot in old(nodes) then Err(SlotAlreadyProcessed(slot))
                    else if |old(nodes)| >= 256 then Err(MaxDepthExceeded(|old(nodes)|, 256))
                    else Ok(()))
      ensures r.Err? ==> nodes == old(nodes) && credit == old(credit)
      ensures r.Ok? ==> nodes == Insert(old(nodes), slot, parent, blockHash, bankHash)
      ensures r.Ok? ==> AddedUnder(old(nodes), slot, parent, blockHash, bankHash, nodes)
      ensures r.Ok? ==> credit == old(credit)[slot := {}]
      ensures (parent < slot || r.Err?) && old(Bounded(nodes, credit)) ==> Bounded(nodes, credit)
      ensures (parent < slot || r.Err?) && old(Complete()) && parent in old(nodes) ==> Complete()
    {
      hide Shape, Accounted, NoOrphans, Exact, Bounded, AddedUnder;
      if slot in nodes {
        return Err(SlotAlreadyProcessed(slot));
      }
      if |nodes| >= MAX_FORK_TREE_NODES {
        return Err(MaxDepthExceeded(|nodes|, MAX_FORK_TREE_NODES));
      }
      ghost var was := nodes;
      InsertAdds(nodes, slot, parent, blockHash, bankHash);
      if parent < slot {
        InsertShape(nodes, rootSlot, slot, parent, blockHash, bankHash);
        InsertAccounts(nodes, voted, weight, credit, slot, parent, blockHash, bankHash);
        CreditKeys(nodes, voted, weight, credit);
        InsertKeepsCredit(nodes, rootSlot, credit, slot, parent, blockHash, bankHash);
        if NoOrphans(nodes, rootSlot) && parent in nodes {
          InsertNoOrphans(nodes, rootSlot, slot, parent, blockHash, bankHash);
        }
      }
      var connected := false;
      if parent in nodes {
        nodes := nodes[parent := nodes[parent].(children := nodes[parent].children + [slot])];
        connected := nodes[parent].connected;
      }
      nodes := nodes[slot := Node(Some(parent), blockHash, bankHash, [], 0, 0, connected, Processed, {})];
      assert nodes == Insert(was, slot, parent, blockHash, bankHash);
      credit := credit[slot := {}];
      r := Ok(());
    }

    /** Counts a voter's first vote on a present slot for that slot and its whole parent
        chain; a later vote by the same voter, or one on a missing slot, changes nothing. */
    method AddVote(slot: nat, voter: Address, stake: U64) returns (counted: bool)
      requires Valid()
      modifies this
      ensures Valid() && rootSlot == old(rootSlot) && bestSlot == old(bestSlot)
      ensures totalActiveStake == old(totalActiveStake)
      ensures counted <==> voter !in old(voted) && slot in old(nodes)
      ensures !counted ==> nodes == old(nodes) && voted == old(voted) && weight == old(weight) && credit == old(credit)
      ensures counted ==>
                && nodes == Vote(old(nodes), slot, voter, stake) && VotedFor(old(nodes), slot, voter, stake, nodes)
                && voted == old(voted)[voter := slot] && weight == old(weight)[voter := stake]
                && credit == CreditVote(old(nodes), old(credit), slot, voter)
      ensures old(Bounded(nodes, credit)) ==> Bounded(nodes, credit)
      ensures old(Complete()) ==> Complete()
    {
      hide Accounted, NoOrphans, Exact, Bounded, ChildrenLinked, FlagsAgree, Vote, CreditVote, OwnVote, VotedFor;
      if voter in voted || slot !in nodes {
        return false;
      }
      VoteKeeps(nodes, rootSlot, voted, weight, credit, slot, voter, stake);
      VoteCounts(nodes, slot, voter, stake);
      ghost var was := nodes;
      nodes := nodes[slot := OwnVote(nodes[slot], voter, stake)];
      voted := voted[voter := slot];
      CreditChain(slot, stake, was, voter);
      weight := weight[voter := stake];
      credit := CreditVote(was, credit, slot, voter);
      counted := true;
    }

    /** Adds the stake to a slot and to every slot on its parent chain. */
    method CreditChain(slot: nat, stake: U64, ghost was: Nodes, ghost voter: Address)
      requires ParentsBelow(was) && slot in was && nodes == was[slot := OwnVote(was[slot], voter, stake)]
      modifies this`nodes
      ensures nodes == Vote(was, slot, voter, stake)
    {
      hide ChainDone, OwnVote, Vote, VotePart;
      var current := Some(slot);
      ghost var done: set<nat> := {};
      ChainStart(was, slot, voter, stake);
      while current.Some? && current.value in nodes
        invariant nodes == VotePart(was, slot, voter, stake, done) && nodes.Keys == was.Keys
        invariant ChainDone(was, slot, current, done)
        decreases if current.Some? then current.value + 1 else 0
      {
        var n := current.value;
        ChainStep(was, slot, n, done);
        VotePartStep(was, slot, voter, stake, done, n);
        nodes := nodes[n := CreditNode(nodes[n], stake)];
        done := done + {n};
        current := nodes[n].parent;
      }
      ChainEnd(was, slot, voter, stake, current, done);
    }

    method GetAncestry(slot: nat) returns (chain: seq<nat>)
      requires Valid()
      ensures chain == Ancestry(nodes, slot)
    {
      hide Accounted, ChildrenLinked, FlagsAgree;
      chain := [];
      var current := slot;
      while true
        invariant chain + Ancestry(nodes, current) == Ancestry(nodes, slot)
        decreases current
      {
        chain := chain + [current];
        if current !in nodes || nodes[current].parent.None? {
          return;
        }
        current := nodes[current].parent.value;
      }
    }

    /** Walks from the root to the heaviest child, again and again, down to a leaf. */
    method ComputeBestFork() returns (best: nat, ghost path: seq<nat>)
      requires Valid()
      modifies this`bestSlot
      ensures HeaviestPath(nodes, rootSlot, path) && best == path[|path| - 1] && bestSlot == best
      ensures Listed(nodes, rootSlot, best)
      ensures forall i :: 0 <= i < |path| - 1 ==> Outweighs(nodes, path[i], path[i + 1])
    {
      hide Accounted, FlagsAgree, Heaviest, Listed, Outweighs;
      best := rootSlot;
      path := [rootSlot];
      while nodes[best].children != []
        invariant |path| > 0 && path[0] == rootSlot && path[|path| - 1] == best
        invariant forall i :: 0 <= i < |path| ==> path[i] in nodes
        invariant forall i :: 0 <= i < |path| - 1 ==> HeaviestStep(nodes, path[i], path[i + 1])
        decreases Above(nodes, best)
      {
        var k := HeaviestChild(best);
        var next := nodes[best].children[k];
        assert nodes[next].parent == Some(best);
        assert HeaviestStep(nodes, best, next);
        assert next in Above(nodes, best);
        path := path + [next];
        best := next;
      }
      HeaviestPathListed(nodes, rootSlot, path, |path| - 1);
      HeaviestOutweighs(nodes, rootSlot, path);
      bestSlot := best;
    }

    /** The last of the greatest children by subtree stake and then block hash. */
    method HeaviestChild(slot: nat) returns (k: nat)
      requires Valid() && slot in nodes && nodes[slot].children != []
      ensures k < |nodes[slot].children| && Heaviest(nodes, nodes[slot].children, k)
    {
      hide Accounted, FlagsAgree;
      var cs := nodes[slot].children;
      k := 0;
      for i := 1 to |cs|
        invariant k < i
        invariant forall j :: 0 <= j < i ==> AtMost(nodes[cs[j]], nodes[cs[k]])
        invariant forall j :: k < j < i ==> !AtMost(nodes[cs[k]], nodes[cs[j]])
      {
        if AtMost(nodes[cs[k]], nodes[cs[i]]) {
          k := i;
        }
      }
    }

    method CollectSubtree(r: nat) returns (reached: set<nat>)
      requires Valid() && r in nodes
      ensures forall s :: s in reached <==> s in nodes && Listed(nodes, r, s)
    {
      hide Accounted, ChildrenLinked, FlagsAgree, Listed, Collecting;
      reached := {};
      var stack := [r];
      CollectStart(nodes, r);
      while |stack| > 0
        invariant Collecting(nodes, r, stack, reached)
        decreases nodes.Keys - reached
      {
        CollectStep(nodes, rootSlot, r, stack, reached);
        var s := stack[|stack| - 1];
        stack := stack[..|stack| - 1] + nodes[s].children;
        reached := reached + {s};
      }
      CollectedExactly(nodes, r, reached);
    }

    /** Moves the root to a later present slot: what survives is the subtree listed under
        it, and the slots handed back are exactly the others, each once. */
    method SetRoot(newRoot: nat) returns (r: Result<seq<nat>, ForkError>)
      requires Valid()
      modifies this
      ensures Valid() && bestSlot == old(bestSlot) && totalActiveStake == old(totalActiveStake)
      ensures r.Err? <==> newRoot !in old(nodes)
      ensures r.Err? ==> r.error == InvalidRoot(newRoot)
      ensures r.Err? || newRoot <= old(rootSlot) ==>
                nodes == old(nodes) && rootSlot == old(rootSlot) && voted == old(voted) && weight == old(weight) &&
                    credit == old(credit)
      ensures r.Ok? && newRoot <= old(rootSlot) ==> r.value == []
      ensures r.Ok? && newRoot > old(rootSlot) ==>
                && rootSlot == newRoot
                && nodes == Prune(old(nodes), newRoot) && PrunedTo(old(nodes), newRoot, nodes)
                && voted == KeepVoted(old(voted), newRoot)
                && (forall v :: v in voted <==> v in old(voted) && old(voted)[v] >= newRoot)
                && (forall v :: v in voted ==> voted[v] == old(voted)[v])
                && (forall s :: s in r.value <==> s in old(nodes) && !Listed(old(nodes), newRoot, s))
                && (forall i, j :: 0 <= i < j < |r.value| ==> r.value[i] != r.value[j])
      ensures old(Bounded(nodes, credit)) ==> (Bounded(nodes, credit) <==> CreditPresent(nodes, voted, credit))
      ensures old(Bounded(nodes, credit) && VotedListed(nodes, newRoot)) ==> Bounded(nodes, credit)
      ensures old(Exact(nodes, credit)) && newRoot in old(nodes) && newRoot > old(rootSlot) ==>
                && (Bounded(nodes, credit) <==> old(VotedListed(nodes, newRoot)))
                && (Exact(nodes, credit) <==> old(VotedListed(nodes, newRoot)))
      ensures old(Complete()) ==> Complete()
    {
      hide Accounted, NoOrphans, Exact, Bounded, CreditPresent, ChildrenLinked, FlagsAgree, Listed, VotedListed, Prune;
      hide PrunedTo;
      if Bounded(nodes, credit) {
        BoundedIsPresent(nodes, voted, weight, credit);
      }
      if newRoot !in nodes {
        return Err(InvalidRoot(newRoot));
      }
      if newRoot <= rootSlot {
        return Ok([]);
      }
      ghost var was := nodes;
      PruneKeeps(nodes, rootSlot, voted, weight, credit, newRoot);
      PruneIs(nodes, newRoot);
      var kept, pruned := Survivors(newRoot);
      nodes := kept[newRoot := kept[newRoot].(parent := None, commitment := Finalized)];
      rootSlot := newRoot;
      voted := map v | v in voted && voted[v] >= newRoot :: voted[v];
      weight := KeepWeight(weight, old(voted), newRoot);
      credit := KeepCredit(credit, nodes.Keys);
      r := Ok(pruned);
    }

    /** The nodes that stay and the slots that go when the root moves. */
    method Survivors(newRoot: nat) returns (kept: Nodes, pruned: seq<nat>)
      requires Valid() && newRoot in nodes && newRoot > rootSlot
      ensures newRoot in kept
      ensures kept[newRoot := kept[newRoot].(parent := None, commitment := Finalized)] == Prune(nodes, newRoot)
      ensures forall s :: s in pruned <==> s in nodes && !Listed(nodes, newRoot, s)
      ensures forall i, j :: 0 <= i < j < |pruned| ==> pruned[i] != pruned[j]
    {
      hide Accounted, ChildrenLinked, FlagsAgree, Listed, Removed, Ancestry;
      var ancestry := GetAncestry(newRoot);
      var reached := CollectSubtree(newRoot);
      kept, pruned := PruneOutside(reached, ancestry);
      kept, pruned := PruneAncestry(reached, ancestry, kept, pruned, newRoot);
      PrunedSlots(nodes, newRoot, kept, pruned);
      PrunedIs(nodes, newRoot, kept);
    }

    /** The first pass of pruning, in the map's own order: what is neither in the subtree
        nor an ancestor goes. */
    method PruneOutside(reached: set<nat>, ancestry: seq<nat>) returns (kept: Nodes, pruned: seq<nat>)
      ensures Removed(nodes, kept, pruned)
      ensures forall s :: s in kept <==> s in nodes && (s in reached || s in ancestry)
    {
      kept, pruned := nodes, [];
      var todo := nodes.Keys;
      while todo != {}
        invariant todo <= kept.Keys && Removed(nodes, kept, pruned)
        invariant forall s :: s in kept <==> s in nodes && (s in todo || s in reached || s in ancestry)
        decreases todo
      {
        var s :| s in todo;
        todo := todo - {s};
        if !(s in reached || s in ancestry) {
          RemoveOne(nodes, kept, pruned, s);
          kept := kept - {s};
          pruned := pruned + [s];
        }
      }
    }

    /** The second pass: the ancestors of the new root go, the old root last. */
    method PruneAncestry(reached: set<nat>, ancestry: seq<nat>, kept0: Nodes, pruned0: seq<nat>, newRoot: nat)
      returns (kept: Nodes, pruned: seq<nat>)
      requires Valid() && newRoot in nodes && newRoot > rootSlot
      requires ancestry == Ancestry(nodes, newRoot) && Removed(nodes, kept0, pruned0)
      requires forall s :: s in reached <==> s in nodes && Listed(nodes, newRoot, s)
      requires forall s :: s in kept0 <==> s in nodes && (s in reached || s in ancestry)
      ensures Removed(nodes, kept, pruned)
      ensures forall s :: s in kept <==> s in reached
    {
      hide Accounted, ChildrenLinked, FlagsAgree, Listed, IsAncestor, Removed, Ancestry;
      AncestryMeaning(nodes, newRoot);
      AncestorsUnlisted(nodes, newRoot);
      kept, pruned := kept0, pruned0;
      for i := 0 to |ancestry|
        invariant Removed(nodes, kept, pruned) && reached <= kept.Keys <= kept0.Keys
        invariant forall j :: 0 <= j < i ==> ancestry[j] == newRoot || ancestry[j] == rootSlot || ancestry[j] !in kept
      {
        var s := ancestry[i];
        if s != newRoot && s != rootSlot && s in kept {
          RemoveOne(nodes, kept, pruned, s);
          kept := kept - {s};
          pruned := pruned + [s];
        }
      }
      if rootSlot in kept {
        RemoveOne(nodes, kept, pruned, rootSlot);
        kept := kept - {rootSlot};
        pruned := pruned + [rootSlot];
      }
    }

    /** Connects exactly the nodes whose parent chain reaches a connected node, and lists
        each of them under its parent. */
    method TryReconnectOrphans()
      requires Valid()
      modifies this
      ensures Valid() && unchanged(`rootSlot, `bestSlot, `totalActiveStake, `voted, `weight, `credit)
      ensures Relinked(old(nodes), nodes)
      ensures forall s :: s in nodes ==> (nodes[s].connected <==> Connects(old(nodes), s))
      ensures forall r :: r in nodes && nodes[r].connected ==> AllListed(nodes, r)
      ensures old(Bounded(nodes, credit)) ==> Bounded(nodes, credit)
      ensures old(Complete()) ==> Complete()
    {
      hide Accounted, NoOrphans, Exact, Bounded, ChildrenLinked, FlagsAgree, Connects, Relinked, ConnectedListed;
      hide Waiting, Queued;
      ghost var was := nodes;
      var waiting := OrphanChildren();
      var queue := ConnectedSlots();
      ReconnectStart(nodes, rootSlot, waiting, Elements(queue));
      while |queue| > 0
        invariant Reconnecting(was, rootSlot, nodes, waiting, Elements(queue))
        invariant forall p :: p in waiting ==> waiting[p] != []
        invariant unchanged(`rootSlot, `bestSlot, `totalActiveStake, `voted, `weight, `credit)
        decreases Disconnected(nodes), |queue|
      {
        var p := queue[0];
        ElementsFront(queue);
        queue := queue[1..];
        if p in waiting {
          var children := waiting[p];
          ghost var before, rest := Disconnected(nodes), waiting - {p};
          assert waiting == rest[p := children[0..]];
          waiting := waiting - {p};
          for i := 0 to |children|
            invariant Reconnecting(was, rootSlot, nodes, waiting[p := children[i..]], Elements(queue) + {p})
            invariant Disconnected(nodes) <= before && (i > 0 ==> Disconnected(nodes) < before)
            invariant unchanged(`rootSlot, `bestSlot, `totalActiveStake, `voted, `weight, `credit)
          {
            ConnectChild(p, children[i], was, waiting, children, i, queue);
            queue := queue + [children[i]];
          }
          assert waiting[p := children[|children|..]] - {p} == waiting;
          DropVisited(was, rootSlot, nodes, waiting[p := children[|children|..]], p, Elements(queue));
        } else {
          DropVisited(was, rootSlot, nodes, waiting, p, Elements(queue));
          assert waiting - {p} == waiting;
        }
      }
      assert Elements(queue) == {};
      ReconnectEnd(was, rootSlot, nodes, waiting);
      ReconnectKeepsCredit(was, nodes, voted, weight, credit);
      ReconnectNoOrphans(was, rootSlot, nodes);
      forall r | r in nodes && nodes[r].connected ensures AllListed(nodes, r) {
        ReconnectedAllListed(was, rootSlot, nodes, r);
      }
    }

    /** Flags one orphan connected and lists it under its parent if it is not there yet. */
    method ConnectChild(p: nat, c: nat, ghost was: Nodes, ghost waiting: map<nat, seq<nat>>, ghost children: seq<nat>,
        ghost i: nat, ghost queue: seq<nat>)
      requires ParentsBelow(was) && i < |children| && c == children[i]
      requires Reconnecting(was, rootSlot, nodes, waiting[p := children[i..]], Elements(queue) + {p})
      modifies this`nodes
      ensures Reconnecting(was, rootSlot, nodes, waiting[p := children[i + 1..]], Elements(queue + [c]) + {p})
      ensures Disconnected(nodes) < Disconnected(old(nodes))
    {
      hide Relinked, ChildrenLinked, ConnectedListed, Waiting, Queued, Disconnected;
      ghost var before := waiting[p := children[i..]];
      AttachStep(was, rootSlot, nodes, before, Elements(queue) + {p}, p);
      assert before[p := before[p][1..]] == waiting[p := children[i + 1..]];
      AttachShrinks(nodes, p, c);
      ElementsBack(queue, c);
      assert (Elements(queue) + {p}) + {c} == Elements(queue + [c]) + {p};
      nodes := nodes[c := nodes[c].(connected := true)];
      if c !in nodes[p].children {
        nodes := nodes[p := nodes[p].(children := nodes[p].children + [c])];
      }
    }

    /** The disconnected nodes grouped by the parent they name, in the map's own order. */
    method OrphanChildren() returns (waiting: map<nat, seq<nat>>)
      ensures Waiting(nodes, nodes, waiting) && forall p :: p in waiting ==> waiting[p] != []
    {
      waiting := map[];
      var todo := nodes.Keys;
      while todo != {}
        invariant todo <= nodes.Keys
        invariant forall s :: s in nodes && s !in todo && !nodes[s].connected && nodes[s].parent.Some? ==>
                    nodes[s].parent.value in waiting && s in waiting[nodes[s].parent.value]
        invariant forall p, i :: p in waiting && 0 <= i < |waiting[p]| ==>
                  Waits(nodes, nodes, p, waiting[p][i]) && waiting[p][i] !in todo
        invariant forall p, i, j :: p in waiting && 0 <= i < j < |waiting[p]| ==> waiting[p][i] != waiting[p][j]
        invariant forall p :: p in waiting ==> waiting[p] != []
        decreases todo
      {
        var s :| s in todo;
        todo := todo - {s};
        if !nodes[s].connected && nodes[s].parent.Some? {
          var p := nodes[s].parent.value;
          waiting := waiting[p := (if p in waiting then waiting[p] else []) + [s]];
          assert waiting[p][|waiting[p]| - 1] == s;
        }
      }
    }

    method ConnectedSlots() returns (queue: seq<nat>)
      ensures forall s :: s in Elements(queue) <==> s in nodes && nodes[s].connected
    {
      queue := [];
      var todo := nodes.Keys;
      while todo != {}
        invariant todo <= nodes.Keys
        invariant forall s :: s in Elements(queue) <==> s in nodes && s !in todo && nodes[s].connected
        decreases todo
      {
        var s :| s in todo;
        todo := todo - {s};
        if nodes[s].connected {
          ElementsBack(queue, s);
          queue := queue + [s];
        }
      }
    }
  }

  // ---------------------------------------------------------------------------------
  // Whole runs

  datatype Command =
    | NewBlock(slot: nat, parent: nat, blockHash: Address, bankHash: Address)
    | NewVote(slot: nat, voter: Address, stake: U64)
    | BestFork
    | AdvanceRoot(slot: nat)
    | Reconnect

  /** The subtree stake of every node is the capped sum of the stakes of exactly the voters
      whose recorded vote sits on it or below it. */
  ghost predicate StakeIsVotesBelow(nodes: Nodes, weight: map<Address, nat>)
    requires ParentsBelow(nodes)
  {
    forall n :: n in nodes ==>
        VotersBelow(nodes, n) <= weight.Keys && nodes[n].subtreeStake == Capped(StakeSum(weight, VotersBelow(nodes, n)))
  }

  lemma {:induction false} ExactStake(nodes: Nodes, voted: map<Address, nat>, weight: map<Address, nat>,
      credit: map<nat, set<Address>>)
    requires ParentsBelow(nodes) && Accounted(nodes, voted, weight, credit) && Exact(nodes, credit)
    ensures StakeIsVotesBelow(nodes, weight)
  {
    hide StakeSum, VotersBelow, Capped;
    forall n | n in nodes
      ensures VotersBelow(nodes, n) <= weight.Keys
      ensures nodes[n].subtreeStake == Capped(StakeSum(weight, VotersBelow(nodes, n)))
    {
      assert NodeAccounted(n, nodes[n], voted, weight, credit[n]);
    }
  }

  /** No subtree stake exceeds the capped sum of the stakes of the voters on or below it. */
  ghost predicate StakeWithinVotesBelow(nodes: Nodes, weight: map<Address, nat>)
    requires ParentsBelow(nodes)
  {
    forall n :: n in nodes ==>
        VotersBelow(nodes, n) <= weight.Keys && nodes[n].subtreeStake <= Capped(StakeSum(weight, VotersBelow(nodes, n)))
  }

  lemma {:induction false} BoundedStake(nodes: Nodes, voted: map<Address, nat>, weight: map<Address, nat>,
      credit: map<nat, set<Address>>)
    requires ParentsBelow(nodes) && Accounted(nodes, voted, weight, credit) && Bounded(nodes, credit)
    ensures StakeWithinVotesBelow(nodes, weight)
  {
    hide StakeSum;
    forall n | n in nodes
      ensures VotersBelow(nodes, n) <= weight.Keys
      ensures nodes[n].subtreeStake <= Capped(StakeSum(weight, VotersBelow(nodes, n)))
    {
      assert NodeAccounted(n, nodes[n], voted, weight, credit[n]);
      forall v | v in VotersBelow(nodes, n) ensures v in weight {
        var m :| m in nodes && v in nodes[m].voters;
        assert NodeAccounted(m, nodes[m], voted, weight, credit[m]);
      }
      var below := VotersBelow(nodes, n);
      StakeSumUnion(weight, credit[n], below - credit[n]);
      assert credit[n] + (below - credit[n]) == below;
    }
  }

  /** Any run of blocks, votes, best-fork computations and root advances in which blocks
      wait until their parent is in the tree: stakes stay exact and no orphan appears. */
  method Drive(tree: ForkTree, commands: seq<Command>)
    requires tree.Complete()
    requires forall i :: 0 <= i < |commands| && commands[i].NewBlock? ==> commands[i].parent < commands[i].slot
    modifies tree
    ensures tree.Complete() && StakeIsVotesBelow(tree.nodes, tree.weight)
    ensures tree.rootSlot >= old(tree.rootSlot)
  {
    hide Accounted, NoOrphans, Exact, ChildrenLinked, FlagsAgree, Follows, Bounded, VotedListed;
    for i := 0 to |commands|
      invariant tree.Complete() && tree.rootSlot >= old(tree.rootSlot)
    {
      if commands[i].NewBlock? ==> commands[i].parent in tree.nodes {
        Obey(tree, commands[i]);
      }
    }
    ShapeParents(tree.nodes, tree.rootSlot);
    ExactStake(tree.nodes, tree.voted, tree.weight, tree.credit);
  }

  /** What one command may do to the nodes. */
  ghost predicate Follows(was: Nodes, c: Command, now: Nodes) {
    ParentsBelow(was)
    && match c
       case NewBlock(slot, parent, blockHash, bankHash) =>
         now == was || (slot !in was && now == Insert(was, slot, parent, blockHash, bankHash))
       case NewVote(slot, voter, stake) => now == was || (slot in was && now == Vote(was, slot, voter, stake))
       case BestFork => now == was
       case AdvanceRoot(slot) => now == was || (slot in was && now == Prune(was, slot))
       case Reconnect => Relinked(was, now)
  }

  /** The nodes before each command and after the last. */
  ghost predicate TraceOf(commands: seq<Command>, trace: seq<Nodes>, n: nat) {
    n <= |commands| && |trace| == n + 1 && forall i :: 0 <= i < n ==> Follows(trace[i], commands[i], trace[i + 1])
  }

  /** Up to the `n`-th command the root moves only to slots below which no vote is unlisted. */
  ghost predicate MovesGuarded(commands: seq<Command>, trace: seq<Nodes>, n: nat)
    requires n <= |commands| && n <= |trace|
  {
    forall i :: 0 <= i < n && commands[i].AdvanceRoot? && ParentsBelow(trace[i]) ==>
        VotedListed(trace[i], commands[i].slot)
  }

  lemma {:induction false} TraceMore(commands: seq<Command>, trace: seq<Nodes>, n: nat, now: Nodes)
    requires TraceOf(commands, trace, n) && n < |commands| && Follows(trace[n], commands[n], now)
    ensures TraceOf(commands, trace + [now], n + 1)
    ensures MovesGuarded(commands, trace + [now], n + 1) ==> MovesGuarded(commands, trace, n)
    ensures MovesGuarded(commands, trace + [now], n + 1) && commands[n].AdvanceRoot? && ParentsBelow(trace[n]) ==>
              VotedListed(trace[n], commands[n].slot)
  {
    hide Follows, VotedListed, ParentsBelow;
    var more := trace + [now];
    forall i | 0 <= i <= n ensures more[i] == trace[i] { }
  }

  /** Any run at all, orphans included: nobody is ever counted twice, and as long as every
      root move leaves no vote unlisted no node counts a vote that is not below it. */
  method DriveFreely(tree: ForkTree, commands: seq<Command>) returns (ghost trace: seq<Nodes>)
    requires tree.Valid() && Bounded(tree.nodes, tree.credit)
    requires forall i :: 0 <= i < |commands| && commands[i].NewBlock? ==> commands[i].parent < commands[i].slot
    modifies tree
    ensures tree.Valid() && tree.rootSlot >= old(tree.rootSlot)
    ensures TraceOf(commands, trace, |commands|) && trace[0] == old(tree.nodes) && trace[|commands|] == tree.nodes
    ensures ParentsBelow(tree.nodes)
    ensures MovesGuarded(commands, trace, |commands|) ==>
              Bounded(tree.nodes, tree.credit) && StakeWithinVotesBelow(tree.nodes, tree.weight)
  {
    hide ChildrenLinked, FlagsAgree, Accounted, NoOrphans, Exact, Vote, CreditVote, Prune, KeepVoted, Insert;
    hide HeaviestPath;
    hide Listed, AllListed, VotedListed, Bounded, CreditPresent, Relinked, TraceOf, MovesGuarded;
    trace := [tree.nodes];
    assert TraceOf(commands, trace, 0) by { TraceStart(commands, tree.nodes); }
    for n := 0 to |commands|
      invariant tree.Valid() && tree.rootSlot >= old(tree.rootSlot)
      invariant |trace| == n + 1 && TraceOf(commands, trace, n) && trace[0] == old(tree.nodes) && trace[n] == tree.nodes
      invariant MovesGuarded(commands, trace, n) ==> Bounded(tree.nodes, tree.credit)
    {
      Obey(tree, commands[n]);
      TraceMore(commands, trace, n, tree.nodes);
      trace := trace + [tree.nodes];
    }
    ShapeParents(tree.nodes, tree.rootSlot);
    if Bounded(tree.nodes, tree.credit) {
      BoundedStake(tree.nodes, tree.voted, tree.weight, tree.credit);
    }
  }

  lemma {:induction false} TraceStart(commands: seq<Command>, nodes: Nodes)
    ensures TraceOf(commands, [nodes], 0)
  {
  }

  /** One command. */
  method Obey(tree: ForkTree, command: Command)
    requires tree.Valid() && (command.NewBlock? ==> command.parent < command.slot)
    modifies tree
    ensures tree.Valid() && tree.rootSlot >= old(tree.rootSlot)
    ensures Follows(old(tree.nodes), command, tree.nodes)
    ensures old(Bounded(tree.nodes, tree.credit)) &&
              (command.AdvanceRoot? ==> old(VotedListed(tree.nodes, command.slot))) ==>
              Bounded(tree.nodes, tree.credit)
    ensures old(tree.Complete()) && (command.NewBlock? ==> command.parent in old(tree.nodes)) ==> tree.Complete()
  {
    hide ChildrenLinked, FlagsAgree, Accounted, NoOrphans, Exact, Vote, CreditVote, Prune, KeepVoted, Insert;
    hide HeaviestPath, AddedUnder, VotedFor, PrunedTo, Outweighs;
    hide Listed, AllListed, VotedListed, Bounded, CreditPresent, Relinked;
    match command
    case NewBlock(slot, parent, blockHash, bankHash) =>
      var _ := tree.AddSlot(slot, parent, blockHash, bankHash);
    case NewVote(slot, voter, stake) =>
      var _ := tree.AddVote(slot, voter, stake);
    case BestFork =>
      var _, _ := tree.ComputeBestFork();
    case AdvanceRoot(slot) =>
      if slot in tree.nodes {
        var _ := tree.SetRoot(slot);
      }
    case Reconnect =>
      tree.TryReconnectOrphans();
  }

  /** Any run in which the root moves only to connected slots, right after a reconnection:
      no node ever counts a vote that is not below it. */
  method DriveReconnecting(tree: ForkTree, commands: seq<Command>)
    requires tree.Valid() && Bounded(tree.nodes, tree.credit)
    requires forall i :: 0 <= i < |commands| && commands[i].NewBlock? ==> commands[i].parent < commands[i].slot
    modifies tree
    ensures tree.Valid() && tree.rootSlot >= old(tree.rootSlot) && Bounded(tree.nodes, tree.credit)
    ensures ParentsBelow(tree.nodes) && StakeWithinVotesBelow(tree.nodes, tree.weight)
  {
    hide ChildrenLinked, FlagsAgree, Accounted, NoOrphans, Exact, Vote, CreditVote, Prune, KeepVoted, Insert;
    hide HeaviestPath, AddedUnder, VotedFor, PrunedTo, Outweighs;
    hide Listed, AllListed, VotedListed, Bounded, CreditPresent, Relinked, Follows;
    for n := 0 to |commands|
      invariant tree.Valid() && tree.rootSlot >= old(tree.rootSlot) && Bounded(tree.nodes, tree.credit)
    {
      if commands[n].AdvanceRoot? {
        tree.TryReconnectOrphans();
        var slot := commands[n].slot;
        if slot in tree.nodes && tree.nodes[slot].connected {
          ListedVotes(tree.nodes, slot);
          var _ := tree.SetRoot(slot);
        }
      } else {
        Obey(tree, commands[n]);
      }
    }
    ShapeParents(tree.nodes, tree.rootSlot);
    BoundedStake(tree.nodes, tree.voted, tree.weight, tree.credit);
  }

  lemma {:induction false} ShapeParents(nodes: Nodes, root: nat)
    requires Shape(nodes, root)
    ensures ParentsBelow(nodes)
  {
  }
}
