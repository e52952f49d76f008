/** Stake accounting in the fork tree: every node's subtree stake is the capped sum over a
    set of voters, so nobody is counted twice, and what that set has to do with the votes
    below the node. */
module ForkStakes {
  import opened Crypto
  import opened Sums
  import opened ForkTrees

  // ---------------------------------------------------------------------------------
  // The accounting invariant

  /** One node: its own stake and its subtree stake are capped sums over sets of voters,
      its own voters voted on it, and those credited voted on it or on a later slot. */
  ghost predicate NodeAccounted(s: nat, node: Node, voted: map<Address, nat>, weight: map<Address, nat>,
      credit: set<Address>)
  {
    && weight.Keys == voted.Keys
    && credit <= voted.Keys && node.voters <= voted.Keys
    && node.subtreeStake == Capped(StakeSum(weight, credit))
    && node.stakeVoted == Capped(StakeSum(weight, node.voters))
    && (forall v :: v in credit ==> voted[v] >= s)
    && (forall v :: v in node.voters ==> voted[v] == s)
  }

  ghost predicate Accounted(nodes: Nodes, voted: map<Address, nat>, weight: map<Address, nat>,
      credit: map<nat, set<Address>>)
  {
    && weight.Keys == voted.Keys && credit.Keys == nodes.Keys
    && forall s :: s in nodes ==> NodeAccounted(s, nodes[s], voted, weight, credit[s])
  }

  lemma {:induction false} CreditKeys(nodes: Nodes, voted: map<Address, nat>, weight: map<Address, nat>,
      credit: map<nat, set<Address>>)
    requires Accounted(nodes, voted, weight, credit)
    ensures weight.Keys == voted.Keys && credit.Keys == nodes.Keys
  {
  }

  /** The voters whose vote sits on a node below `n` in the tree (or on `n`). */
  ghost function VotersBelow(nodes: Nodes, n: nat): (r: set<Address>)
    requires ParentsBelow(nodes)
  {
    set m, v | m in nodes && IsAncestor(nodes, n, m) && v in nodes[m].voters :: v
  }

  /** No node is credited with a vote that is not below it. */
  ghost predicate Bounded(nodes: Nodes, credit: map<nat, set<Address>>) {
    ParentsBelow(nodes) && forall n :: n in nodes && n in credit ==> credit[n] <= VotersBelow(nodes, n)
  }

  /** Every node is credited with exactly the votes below it. */
  ghost predicate Exact(nodes: Nodes, credit: map<nat, set<Address>>) {
    ParentsBelow(nodes) && forall n :: n in nodes && n in credit ==> credit[n] == VotersBelow(nodes, n)
  }

  // ---------------------------------------------------------------------------------
  // Voting

  /** The vote on the node itself. */
  function OwnVote(node: Node, voter: Address, stake: nat): (r: Node) {
    node.(stakeVoted := SaturatingAdd(node.stakeVoted, stake), voters := node.voters + {voter})
  }

  function CreditNode(node: Node, stake: nat): (r: Node) {
    node.(subtreeStake := SaturatingAdd(node.subtreeStake, stake))
  }

  /** The vote recorded on its slot and credited to the whole parent chain. */
  ghost function Vote(nodes: Nodes, slot: nat, voter: Address, stake: nat): (r: Nodes)
    requires ParentsBelow(nodes) && slot in nodes
  {
    map n | n in nodes ::
      var own := if n == slot then OwnVote(nodes[n], voter, stake) else nodes[n];
      if IsAncestor(nodes, n, slot) then CreditNode(own, stake) else own
  }

  ghost function CreditVote(nodes: Nodes, credit: map<nat, set<Address>>, slot: nat,
      voter: Address): (r: map<nat, set<Address>>)
    requires ParentsBelow(nodes) && credit.Keys == nodes.Keys
  {
    map n | n in nodes :: if IsAncestor(nodes, n, slot) then credit[n] + {voter} else credit[n]
  }

  /** `now` is `was` with a vote counted: the voter and the stake on the slot itself, the stake
      for the slot and everything on its parent chain, with a cap at 64 bits. */
  ghost predicate VotedFor(was: Nodes, slot: nat, voter: Address, stake: nat, now: Nodes)
    requires ParentsBelow(was)
  {
    && now.Keys == was.Keys
    && forall n :: n in was ==>
         && now[n].parent == was[n].parent && now[n].children == was[n].children
         && now[n].blockHash == was[n].blockHash && now[n].bankHash == was[n].bankHash
         && now[n].connected == was[n].connected && now[n].commitment == was[n].commitment
         && now[n].voters == (if n == slot then was[n].voters + {voter} else was[n].voters)
         && now[n].stakeVoted == (if n == slot then AtMost64(was[n].stakeVoted + stake) else was[n].stakeVoted)
         && now[n].subtreeStake ==
            (if IsAncestor(was, n, slot) then AtMost64(was[n].subtreeStake + stake) else was[n].subtreeStake)
  }

  function AtMost64(n: nat): (r: nat)
    ensures r <= n && r <= U64_MAX && (r == n || r == U64_MAX)
  {
    if n <= U64_MAX then n else U64_MAX
  }

  lemma {:induction false} VoteCounts(nodes: Nodes, slot: nat, voter: Address, stake: nat)
    requires ParentsBelow(nodes) && slot in nodes
    ensures VotedFor(nodes, slot, voter, stake, Vote(nodes, slot, voter, stake))
  {
  }

  lemma {:induction false} SumAfterVote(weight: map<Address, nat>, vs: set<Address>, voter: Address, stake: nat)
    requires vs <= weight.Keys && voter !in weight
    ensures vs <= weight[voter := stake].Keys
    ensures StakeSum(weight[voter := stake], vs) == StakeSum(weight, vs)
    ensures Capped(StakeSum(weight[voter := stake], vs + {voter})) == SaturatingAdd(Capped(StakeSum(weight, vs)), stake)
  {
    StakeSumSame(weight, weight[voter := stake], vs);
    StakeSumAdd(weight[voter := stake], vs, voter);
  }

  lemma {:induction false} VoteAccounts(nodes: Nodes, voted: map<Address, nat>, weight: map<Address, nat>,
      credit: map<nat, set<Address>>, slot: nat, voter: Address, stake: nat)
    requires ParentsBelow(nodes) && Accounted(nodes, voted, weight, credit) && slot in nodes && voter !in voted
    ensures Accounted(Vote(nodes, slot, voter, stake), voted[voter := slot], weight[voter := stake],
              CreditVote(nodes, credit, slot, voter))
  {
    hide StakeSum, Capped, SaturatingAdd;
    var nodes', credit' := Vote(nodes, slot, voter, stake), CreditVote(nodes, credit, slot, voter);
    forall n | n in nodes'
      ensures NodeAccounted(n, nodes'[n], voted[voter := slot], weight[voter := stake], credit'[n]) {
      assert NodeAccounted(n, nodes[n], voted, weight, credit[n]);
      SumAfterVote(weight, credit[n], voter, stake);
      SumAfterVote(weight, nodes[n].voters, voter, stake);
      if IsAncestor(nodes, n, slot) { AncestorBelow(nodes, n, slot); }
    }
  }

  lemma {:induction false} VoteLinks(nodes: Nodes, slot: nat, voter: Address, stake: nat)
    requires ParentsBelow(nodes) && slot in nodes
    ensures SameLinks(nodes, Vote(nodes, slot, voter, stake)) && ParentsBelow(Vote(nodes, slot, voter, stake))
  {
  }

  lemma {:induction false} VoteVoters(nodes: Nodes, slot: nat, voter: Address, stake: nat)
    requires ParentsBelow(nodes) && slot in nodes
    ensures var t := Vote(nodes, slot, voter, stake);
            forall m :: m in nodes ==>
                m in t && t[m].voters == if m == slot then nodes[m].voters + {voter} else nodes[m].voters
  {
  }

  lemma {:induction false} VotersBelowAfterVote(nodes: Nodes, slot: nat, voter: Address, stake: nat, n: nat)
    requires ParentsBelow(nodes) && slot in nodes && n in nodes
    ensures ParentsBelow(Vote(nodes, slot, voter, stake))
    ensures VotersBelow(Vote(nodes, slot, voter, stake), n)
         == if IsAncestor(nodes, n, slot) then VotersBelow(nodes, n) + {voter} else VotersBelow(nodes, n)
  {
    hide Vote, IsAncestor;
    var t := Vote(nodes, slot, voter, stake);
    VoteLinks(nodes, slot, voter, stake);
    VoteVoters(nodes, slot, voter, stake);
    forall m ensures IsAncestor(t, n, m) <==> IsAncestor(nodes, n, m) {
      SameParentsAncestor(nodes, t, n, m);
    }
    var before, after := VotersBelow(nodes, n), VotersBelow(t, n);
    forall v | v in after ensures v in before || (v == voter && IsAncestor(nodes, n, slot)) {
      var m :| m in t && IsAncestor(t, n, m) && v in t[m].voters;
      assert m in nodes && IsAncestor(nodes, n, m);
    }
    forall v | v in before || (v == voter && IsAncestor(nodes, n, slot)) ensures v in after {
      if v in before {
        var m :| m in nodes && IsAncestor(nodes, n, m) && v in nodes[m].voters;
        assert m in t && IsAncestor(t, n, m);
      } else {
        assert slot in t && IsAncestor(t, n, slot) && v in t[slot].voters;
      }
    }
  }

  /** A vote keeps credit bounded, and exact if it was. */
  lemma {:induction false} VoteKeepsCredit(nodes: Nodes, credit: map<nat, set<Address>>, slot: nat, voter: Address,
      stake: nat)
    requires ParentsBelow(nodes) && slot in nodes && credit.Keys == nodes.Keys
    ensures Bounded(nodes, credit) ==> Bounded(Vote(nodes, slot, voter, stake), CreditVote(nodes, credit, slot, voter))
    ensures Exact(nodes, credit) ==> Exact(Vote(nodes, slot, voter, stake), CreditVote(nodes, credit, slot, voter))
  {
    hide VotersBelow;
    VoteLinks(nodes, slot, voter, stake);
    forall n | n in nodes
      ensures VotersBelow(Vote(nodes, slot, voter, stake), n)
           == if IsAncestor(nodes, n, slot) then VotersBelow(nodes, n) + {voter} else VotersBelow(nodes, n)
    {
      VotersBelowAfterVote(nodes, slot, voter, stake, n);
    }
  }

  // ---------------------------------------------------------------------------------
  // Adding a slot

  lemma {:induction false} InsertAccounts(nodes: Nodes, voted: map<Address, nat>, weight: map<Address, nat>,
      credit: map<nat, set<Address>>,
                       slot: nat, parent: nat, blockHash: Address, bankHash: Address)
    requires Accounted(nodes, voted, weight, credit) && slot !in nodes && parent < slot
    ensures Accounted(Insert(nodes, slot, parent, blockHash, bankHash), voted, weight, credit[slot := {}])
  {
    var t := Insert(nodes, slot, parent, blockHash, bankHash);
    forall n | n in t ensures NodeAccounted(n, t[n], voted, weight, credit[slot := {}][n]) {
      if n != slot { assert NodeAccounted(n, nodes[n], voted, weight, credit[n]); }
    }
  }

  lemma {:induction false} InsertVotersBelow(nodes: Nodes, slot: nat, parent: nat, blockHash: Address,
      bankHash: Address, n: nat)
    requires ParentsBelow(nodes) && slot !in nodes && parent < slot
    ensures ParentsBelow(Insert(nodes, slot, parent, blockHash, bankHash))
    ensures VotersBelow(nodes, n) <= VotersBelow(Insert(nodes, slot, parent, blockHash, bankHash), n)
  {
    var t := Insert(nodes, slot, parent, blockHash, bankHash);
    InsertParents(nodes, slot, parent, blockHash, bankHash);
    forall v | v in VotersBelow(nodes, n) ensures v in VotersBelow(t, n) {
      var m :| m in nodes && IsAncestor(nodes, n, m) && v in nodes[m].voters;
      InsertAncestor(nodes, slot, parent, blockHash, bankHash, n, m);
      assert m in t && v in t[m].voters;
    }
  }

  lemma {:induction false} InsertVoters(nodes: Nodes, slot: nat, parent: nat, blockHash: Address, bankHash: Address)
    requires slot !in nodes
    ensures var t := Insert(nodes, slot, parent, blockHash, bankHash);
            forall m :: m in t ==> if m in nodes then t[m].voters == nodes[m].voters else t[m].voters == {}
  {
  }

  lemma {:induction false} InsertVotersBelowExact(nodes: Nodes, root: nat, slot: nat, parent: nat, blockHash: Address,
      bankHash: Address, n: nat)
    requires Shape(nodes, root) && NoOrphans(nodes, root) && slot !in nodes && parent < slot
    ensures ParentsBelow(Insert(nodes, slot, parent, blockHash, bankHash))
    ensures VotersBelow(Insert(nodes, slot, parent, blockHash, bankHash), n) == VotersBelow(nodes, n)
  {
    hide Insert, ChildrenLinked, FlagsAgree, NoOrphans, IsAncestor;
    var t := Insert(nodes, slot, parent, blockHash, bankHash);
    InsertVotersBelow(nodes, slot, parent, blockHash, bankHash, n);
    InsertVoters(nodes, slot, parent, blockHash, bankHash);
    forall v | v in VotersBelow(t, n) ensures v in VotersBelow(nodes, n) {
      var m :| m in t && IsAncestor(t, n, m) && v in t[m].voters;
      InsertAncestorExact(nodes, root, slot, parent, blockHash, bankHash, n, m);
      assert m in nodes && v in nodes[m].voters;
    }
  }

  lemma {:induction false} NoVotersBelowNew(nodes: Nodes, root: nat, slot: nat)
    requires Shape(nodes, root) && NoOrphans(nodes, root) && slot !in nodes
    ensures VotersBelow(nodes, slot) == {}
  {
    forall m | m in nodes ensures !IsAncestor(nodes, slot, m) {
      PresentChain(nodes, root, slot, m);
    }
  }

  lemma {:induction false} PresentChain(nodes: Nodes, root: nat, a: nat, m: nat)
    requires Shape(nodes, root) && NoOrphans(nodes, root) && m in nodes && a !in nodes
    ensures !IsAncestor(nodes, a, m)
    decreases m
  {
    if m == root {
    } else {
      PresentChain(nodes, root, a, nodes[m].parent.value);
    }
  }

  /** A new slot keeps credit bounded whatever its parent; and exact when no node waits for
      a missing parent. */
  lemma {:induction false} InsertKeepsCredit(nodes: Nodes, root: nat, credit: map<nat, set<Address>>, slot: nat,
      parent: nat, blockHash: Address, bankHash: Address)
    requires Shape(nodes, root) && slot !in nodes && parent < slot && credit.Keys == nodes.Keys
    ensures Bounded(nodes, credit) ==> Bounded(Insert(nodes, slot, parent, blockHash, bankHash), credit[slot := {}])
    ensures NoOrphans(nodes, root) && Exact(nodes, credit) ==>
              Exact(Insert(nodes, slot, parent, blockHash, bankHash), credit[slot := {}])
  {
    hide VotersBelow;
    InsertParents(nodes, slot, parent, blockHash, bankHash);
    forall n ensures VotersBelow(nodes, n) <= VotersBelow(Insert(nodes, slot, parent, blockHash, bankHash), n) {
      InsertVotersBelow(nodes, slot, parent, blockHash, bankHash, n);
    }
    if NoOrphans(nodes, root) {
      NoVotersBelowNew(nodes, root, slot);
      forall n ensures VotersBelow(Insert(nodes, slot, parent, blockHash, bankHash), n) == VotersBelow(nodes, n) {
        InsertVotersBelowExact(nodes, root, slot, parent, blockHash, bankHash, n);
      }
    }
  }

  // ---------------------------------------------------------------------------------
  // Moving the root

  ghost function KeepVoted(voted: map<Address, nat>, r: nat): (k: map<Address, nat>) {
    map v | v in voted && voted[v] >= r :: voted[v]
  }

  ghost function KeepWeight(weight: map<Address, nat>, voted: map<Address, nat>, r: nat): (k: map<Address, nat>)
    requires weight.Keys == voted.Keys
  {
    map v | v in voted && voted[v] >= r :: weight[v]
  }

  ghost function KeepCredit(credit: map<nat, set<Address>>, survivors: set<nat>): (k: map<nat, set<Address>>) {
    map n | n in credit && n in survivors :: credit[n]
  }

  lemma {:induction false} SurvivorAbove(nodes: Nodes, r: nat, s: nat)
    requires ParentsBelow(nodes) && Listed(nodes, r, s)
    ensures s >= r
  {
    ListedIsAncestor(nodes, r, s);
    AncestorBelow(nodes, r, s);
  }

  /** Forgetting the voters below the new root forgets none that a survivor counts. */
  lemma {:induction false} PruneAccounts(nodes: Nodes, root: nat, voted: map<Address, nat>, weight: map<Address, nat>,
      credit: map<nat, set<Address>>, r: nat)
    requires Shape(nodes, root) && r in nodes && Accounted(nodes, voted, weight, credit)
    ensures Accounted(Prune(nodes, r), KeepVoted(voted, r), KeepWeight(weight, voted, r),
              KeepCredit(credit, Prune(nodes, r).Keys))
  {
    hide Capped, StakeSum;
    var t, voted', weight' := Prune(nodes, r), KeepVoted(voted, r), KeepWeight(weight, voted, r);
    forall s | s in t ensures NodeAccounted(s, t[s], voted', weight', credit[s]) {
      assert NodeAccounted(s, nodes[s], voted, weight, credit[s]);
      SurvivorAbove(nodes, r, s);
      StakeSumSame(weight, weight', credit[s]);
      StakeSumSame(weight, weight', nodes[s].voters);
    }
  }

  /** Every slot below the new root that has a vote on it is listed below it. */
  ghost predicate VotedListed(nodes: Nodes, r: nat)
    requires ParentsBelow(nodes)
  {
    forall m :: m in nodes && IsAncestor(nodes, r, m) && nodes[m].voters != {} ==> Listed(nodes, r, m)
  }

  /** Everything below the new root by parent links is also listed below it. */
  ghost predicate AllListed(nodes: Nodes, r: nat)
    requires ParentsBelow(nodes)
  {
    forall s :: s in nodes && IsAncestor(nodes, r, s) ==> Listed(nodes, r, s)
  }

  lemma {:induction false} PruneVotersBelow(nodes: Nodes, root: nat, r: nat, n: nat)
    requires Shape(nodes, root) && r in nodes && VotedListed(nodes, r) && n in nodes && Listed(nodes, r, n)
    ensures ParentsBelow(Prune(nodes, r)) && VotersBelow(Prune(nodes, r), n) == VotersBelow(nodes, n)
  {
    var t := Prune(nodes, r);
    PruneShape(nodes, root, r);
    ListedIsAncestor(nodes, r, n);
    forall v | v in VotersBelow(nodes, n) ensures v in VotersBelow(t, n) {
      var m :| m in nodes && IsAncestor(nodes, n, m) && v in nodes[m].voters;
      AncestorTransitive(nodes, r, n, m);
      PruneAncestor(nodes, root, r, n, m);
      assert m in t && v in t[m].voters;
    }
    forall v | v in VotersBelow(t, n) ensures v in VotersBelow(nodes, n) {
      var m :| m in t && IsAncestor(t, n, m) && v in t[m].voters;
      PruneAncestor(nodes, root, r, n, m);
      assert m in nodes && v in nodes[m].voters;
    }
  }

  /** Moving the root keeps credit bounded, or exact, when no slot with votes is unlisted. */
  lemma {:induction false} PruneKeepsCredit(nodes: Nodes, root: nat, credit: map<nat, set<Address>>, r: nat)
    requires Shape(nodes, root) && r in nodes && VotedListed(nodes, r) && credit.Keys == nodes.Keys
    ensures Bounded(nodes, credit) ==> Bounded(Prune(nodes, r), KeepCredit(credit, Prune(nodes, r).Keys))
    ensures Exact(nodes, credit) ==> Exact(Prune(nodes, r), KeepCredit(credit, Prune(nodes, r).Keys))
  {
    hide VotersBelow, ChildrenLinked, FlagsAgree;
    PruneShape(nodes, root, r);
    forall n | n in Prune(nodes, r) ensures VotersBelow(Prune(nodes, r), n) == VotersBelow(nodes, n) {
      PruneVotersBelow(nodes, root, r, n);
    }
  }

  /** From exact credit, moving the root keeps credit bounded exactly if no slot with votes
      below the new root is unlisted; and then credit stays exact. */
  lemma {:induction false} PruneExactIff(nodes: Nodes, root: nat, voted: map<Address, nat>, weight: map<Address, nat>,
      credit: map<nat, set<Address>>, r: nat)
    requires Shape(nodes, root) && r in nodes && Accounted(nodes, voted, weight, credit) && Exact(nodes, credit)
    ensures var t := Prune(nodes, r);
            && (Bounded(t, KeepCredit(credit, t.Keys)) <==> VotedListed(nodes, r))
            && (Exact(t, KeepCredit(credit, t.Keys)) <==> VotedListed(nodes, r))
  {
    var t := Prune(nodes, r);
    PruneShape(nodes, root, r);
    if Bounded(t, KeepCredit(credit, t.Keys)) {
      hide StakeSum, ChildrenLinked, FlagsAgree;
      forall m | m in nodes && IsAncestor(nodes, r, m) && nodes[m].voters != {} ensures Listed(nodes, r, m) {
        VoteSurvives(nodes, root, voted, weight, credit, r, m);
      }
    }
    if VotedListed(nodes, r) {
      CreditKeys(nodes, voted, weight, credit);
      PruneKeepsCredit(nodes, root, credit, r);
    }
  }

  /** A vote the new root counts, and still counts below it, sits on a survivor. */
  lemma {:induction false} VoteSurvives(nodes: Nodes, root: nat, voted: map<Address, nat>, weight: map<Address, nat>,
      credit: map<nat, set<Address>>, r: nat, m: nat)
    requires Shape(nodes, root) && r in nodes && Accounted(nodes, voted, weight, credit) && Exact(nodes, credit)
    requires Bounded(Prune(nodes, r), KeepCredit(credit, Prune(nodes, r).Keys))
    requires m in nodes && IsAncestor(nodes, r, m) && nodes[m].voters != {}
    ensures Listed(nodes, r, m)
  {
    PruneRoot(nodes, r);
    hide Prune, StakeSum, ChildrenLinked, FlagsAgree, IsAncestor, Listed;
    var t := Prune(nodes, r);
    var v :| v in nodes[m].voters;
    assert v in VotersBelow(nodes, r);
    assert v in VotersBelow(t, r);
    var k :| k in t && IsAncestor(t, r, k) && v in t[k].voters;
    PruneMember(nodes, r, k);
    assert NodeAccounted(m, nodes[m], voted, weight, credit[m]);
    assert NodeAccounted(k, nodes[k], voted, weight, credit[k]);
  }

  lemma {:induction false} PruneRoot(nodes: Nodes, r: nat)
    requires ParentsBelow(nodes) && r in nodes
    ensures r in Prune(nodes, r)
  {
    assert Listed(nodes, r, r);
  }

  lemma {:induction false} PruneMember(nodes: Nodes, r: nat, k: nat)
    requires ParentsBelow(nodes) && k in Prune(nodes, r)
    ensures k in nodes && Listed(nodes, r, k) && Prune(nodes, r)[k].voters == nodes[k].voters
  {
  }

  /** Every voter a node counts voted on a slot that is in the tree. */
  ghost predicate CreditPresent(nodes: Nodes, voted: map<Address, nat>, credit: map<nat, set<Address>>) {
    forall n, v :: n in nodes && n in credit && v in credit[n] ==> v in voted && voted[v] in nodes
  }

  /** Credit that was bounded stays bounded exactly if every voter a survivor counts voted on
      a survivor. */
  lemma {:induction false} PruneBoundedIff(nodes: Nodes, root: nat, voted: map<Address, nat>,
      weight: map<Address, nat>, credit: map<nat, set<Address>>, r: nat)
    requires Shape(nodes, root) && r in nodes && Accounted(nodes, voted, weight, credit) && Bounded(nodes, credit)
    ensures var t := Prune(nodes, r);
            Bounded(t, KeepCredit(credit, t.Keys)) <==>
                CreditPresent(t, KeepVoted(voted, r), KeepCredit(credit, t.Keys))
  {
    var t := Prune(nodes, r);
    var kept := KeepCredit(credit, t.Keys);
    PruneShape(nodes, root, r);
    PruneAccounts(nodes, root, voted, weight, credit, r);
    if Bounded(t, kept) {
      BoundedIsPresent(t, KeepVoted(voted, r), KeepWeight(weight, voted, r), kept);
    }
    if CreditPresent(t, KeepVoted(voted, r), kept) {
      hide ChildrenLinked, FlagsAgree, Prune, StakeSum;
      forall n | n in t ensures kept[n] <= VotersBelow(t, n) {
        forall v | v in kept[n] ensures v in VotersBelow(t, n) {
          PresentVoteStays(nodes, root, voted, weight, credit, r, n, v);
        }
      }
    }
  }

  lemma {:induction false} BoundedIsPresent(nodes: Nodes, voted: map<Address, nat>, weight: map<Address, nat>,
      credit: map<nat, set<Address>>)
    requires Accounted(nodes, voted, weight, credit) && Bounded(nodes, credit)
    ensures CreditPresent(nodes, voted, credit)
  {
    hide StakeSum, IsAncestor;
    forall n, v | n in nodes && n in credit && v in credit[n] ensures v in voted && voted[v] in nodes {
      var m :| m in nodes && IsAncestor(nodes, n, m) && v in nodes[m].voters;
      assert NodeAccounted(m, nodes[m], voted, weight, credit[m]);
    }
  }

  lemma {:induction false} PresentVoteStays(nodes: Nodes, root: nat, voted: map<Address, nat>,
      weight: map<Address, nat>, credit: map<nat, set<Address>>, r: nat, n: nat, v: Address)
    requires Shape(nodes, root) && r in nodes && Accounted(nodes, voted, weight, credit) && Bounded(nodes, credit)
    requires n in Prune(nodes, r) && v in credit[n] && v in voted && voted[v] in Prune(nodes, r)
    ensures ParentsBelow(Prune(nodes, r)) && v in VotersBelow(Prune(nodes, r), n)
  {
    hide StakeSum, ChildrenLinked, FlagsAgree;
    PruneShape(nodes, root, r);
    var m :| m in nodes && IsAncestor(nodes, n, m) && v in nodes[m].voters;
    assert NodeAccounted(m, nodes[m], voted, weight, credit[m]);
    PruneAncestor(nodes, root, r, n, m);
    assert m in Prune(nodes, r) && v in Prune(nodes, r)[m].voters;
  }

  // ---------------------------------------------------------------------------------
  // Trees without orphans

  lemma {:induction false} NoOrphansListed(nodes: Nodes, root: nat, r: nat, s: nat)
    requires Shape(nodes, root) && NoOrphans(nodes, root) && s in nodes && IsAncestor(nodes, r, s)
    ensures Listed(nodes, r, s)
    decreases s
  {
    if s == r {
    } else {
      NoOrphansListed(nodes, root, r, nodes[s].parent.value);
    }
  }

  lemma {:induction false} NoOrphansAllListed(nodes: Nodes, root: nat, r: nat)
    requires Shape(nodes, root) && NoOrphans(nodes, root)
    ensures AllListed(nodes, r)
  {
    hide ChildrenLinked, FlagsAgree, NoOrphans, Listed, IsAncestor;
    forall s | s in nodes && IsAncestor(nodes, r, s) ensures Listed(nodes, r, s) {
      NoOrphansListed(nodes, root, r, s);
    }
  }

  lemma {:induction false} InsertNoOrphans(nodes: Nodes, root: nat, slot: nat, parent: nat, blockHash: Address,
      bankHash: Address)
    requires NoOrphans(nodes, root) && slot !in nodes && parent in nodes
    ensures NoOrphans(Insert(nodes, slot, parent, blockHash, bankHash), root)
  {
    var t := Insert(nodes, slot, parent, blockHash, bankHash);
    assert t[parent].children[|nodes[parent].children|] == slot || parent == slot;
    forall s | s in t && s != root
      ensures t[s].parent.Some? && t[s].parent.value in t && s in t[t[s].parent.value].children
    {
      if s != slot {
        assert s in nodes[nodes[s].parent.value].children;
      }
    }
  }

  lemma {:induction false} SameLinksNoOrphans(a: Nodes, b: Nodes, root: nat)
    requires SameLinks(a, b)
    ensures NoOrphans(a, root) ==> NoOrphans(b, root)
  {
  }

  lemma {:induction false} PruneNoOrphans(nodes: Nodes, root: nat, r: nat)
    requires Shape(nodes, root) && r in nodes
    ensures NoOrphans(Prune(nodes, r), r)
  {
  }

  // ---------------------------------------------------------------------------------
  // What exact credit means for forks

  /** Two slots neither of which is an ancestor of the other share no voter, so the stake
      behind them adds up to no more than the stake that voted. */
  lemma {:induction false} ConflictingForksShareNoVoter(nodes: Nodes, voted: map<Address, nat>,
      weight: map<Address, nat>, credit: map<nat, set<Address>>, a: nat, b: nat)
    requires ParentsBelow(nodes) && Accounted(nodes, voted, weight, credit) && Bounded(nodes, credit) && a in nodes
    requires b in nodes
    requires !IsAncestor(nodes, a, b) && !IsAncestor(nodes, b, a)
    ensures credit[a] !! credit[b]
    ensures StakeSum(weight, credit[a]) + StakeSum(weight, credit[b]) <= StakeSum(weight, weight.Keys)
    ensures nodes[a].subtreeStake + nodes[b].subtreeStake <= StakeSum(weight, weight.Keys)
  {
    hide StakeSum, IsAncestor;
    assert NodeAccounted(a, nodes[a], voted, weight, credit[a]) && NodeAccounted(b, nodes[b], voted, weight, credit[b]);
    forall v | v in credit[a] ensures v !in credit[b] {
      if v in credit[b] {
        SharedVoterOneChain(nodes, voted, weight, credit, a, b, v);
      }
    }
    var rest := weight.Keys - credit[a] - credit[b];
    assert weight.Keys == (credit[a] + credit[b]) + rest;
    StakeSumUnion(weight, credit[a], credit[b]);
    StakeSumUnion(weight, credit[a] + credit[b], rest);
  }

  lemma {:induction false} SharedVoterOneChain(nodes: Nodes, voted: map<Address, nat>, weight: map<Address, nat>,
      credit: map<nat, set<Address>>, a: nat, b: nat, v: Address)
    requires ParentsBelow(nodes) && Accounted(nodes, voted, weight, credit) && Bounded(nodes, credit) && a in nodes
    requires b in nodes
    requires v in credit[a] && v in credit[b]
    ensures IsAncestor(nodes, a, b) || IsAncestor(nodes, b, a)
  {
    hide StakeSum, IsAncestor;
    var m :| m in nodes && IsAncestor(nodes, a, m) && v in nodes[m].voters;
    var k :| k in nodes && IsAncestor(nodes, b, k) && v in nodes[k].voters;
    assert NodeAccounted(m, nodes[m], voted, weight, credit[m]) && NodeAccounted(k, nodes[k], voted, weight, credit[k]);
    if a <= b {
      ChainLinear(nodes, a, b, m);
    } else {
      ChainLinear(nodes, b, a, m);
    }
  }

  /** With exact credit a descendant never outweighs its ancestor. */
  lemma {:induction false} AncestorOutweighs(nodes: Nodes, voted: map<Address, nat>, weight: map<Address, nat>,
      credit: map<nat, set<Address>>, a: nat, s: nat)
    requires ParentsBelow(nodes) && Accounted(nodes, voted, weight, credit) && Exact(nodes, credit)
    requires a in nodes && s in nodes && IsAncestor(nodes, a, s)
    ensures nodes[s].subtreeStake <= nodes[a].subtreeStake
  {
    hide StakeSum, IsAncestor;
    assert NodeAccounted(a, nodes[a], voted, weight, credit[a]) && NodeAccounted(s, nodes[s], voted, weight, credit[s]);
    forall v | v in credit[s] ensures v in credit[a] {
      var m :| m in nodes && IsAncestor(nodes, s, m) && v in nodes[m].voters;
      AncestorTransitive(nodes, a, s, m);
    }
    assert credit[a] == credit[s] + (credit[a] - credit[s]);
    StakeSumUnion(weight, credit[s], credit[a] - credit[s]);
  }

  // ---------------------------------------------------------------------------------
  // When moving the root loses counted votes

  /** A tree in which slot 3 arrived before its parent 2, so 2 never lists it. */
  function LateParent(): (t: Nodes) {
    var rooted := map[1 := Node(None, 0, 0, [], 0, 0, true, Finalized, {})];
    Insert(Insert(rooted, 3, 2, 0, 0), 2, 1, 0, 0)
  }

  lemma {:induction false} LateParentIs()
    ensures var t := LateParent();
            && t.Keys == {1, 2, 3} && ParentsBelow(t)
            && t[1].parent == None && t[2].parent == Some(1) && t[3].parent == Some(2)
            && t[2].children == [] && t[1].voters == t[2].voters == {} && t[2].subtreeStake == 0
  {
  }

  /** A vote on 3 is credited to 2, and making 2 the root prunes 3 while 2 keeps the credit. */
  lemma {:induction false} UnlistedVoteOutlivesItsNode(v: Address, stake: U64)
    requires stake > 0
    ensures var t := LateParent();
            && ParentsBelow(t) && 3 in t
            && var voted := Vote(t, 3, v, stake);
               && ParentsBelow(voted) && Prune(voted, 2).Keys == {2}
               && Prune(voted, 2)[2].subtreeStake == stake && Prune(voted, 2)[2].voters == {}
  {
    LateParentIs();
    hide LateParent;
    var t := LateParent();
    var voted := Vote(t, 3, v, stake);
    VoteLinks(t, 3, v, stake);
    assert IsAncestor(t, 2, 2);
    assert IsAncestor(t, 2, 3);
    assert voted[2].subtreeStake == stake;
    assert !Listed(voted, 2, 3);
    assert !Listed(voted, 2, 1);
    assert Prune(voted, 2).Keys == {2};
  }
}
