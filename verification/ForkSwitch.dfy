/** Deciding to switch forks (consensus/src/replay_fork_switch.rs and the switch threshold of
    consensus/src/tower.rs). */
module ForkSwitch {
  import opened Arithmetic
  import opened Crypto
  import opened ForkTrees
  import FC = ForkChoice
  import FS = ForkStakes
  import T = Towers

  const SWITCH_THRESHOLD_PERCENTAGE: nat := 38

  datatype Plan = Plan(commonAncestor: nat, rollbackFrom: nat, replaySlots: seq<nat>)

  // ---------------------------------------------------------------------------------
  // The threshold

  /** The percentage is computed without overflow and then cut to 64 bits. */
  predicate SwitchThreshold(alternative: U64, total: U64) {
    total != 0 && (alternative * 100 / total) % (U64_MAX + 1) >= SWITCH_THRESHOLD_PERCENTAGE
  }

  lemma {:induction false} DivAtLeast(a: nat, total: nat, k: nat)
    requires total > 0
    ensures a / total >= k <==> a >= k * total
  {
    var q := a / total;
    assert a == q * total + a % total;
    if q >= k {
      MulMonotone(k, q, total);
    } else {
      MulMonotone(q + 1, k, total);
      assert (q + 1) * total == q * total + total;
    }
  }

  /** Unless the percentage leaves 64 bits, the test is the 38 percent test. */
  lemma {:induction false} SwitchThresholdMeaning(alternative: U64, total: U64)
    requires total > 0 && alternative * 100 / total <= U64_MAX
    ensures SwitchThreshold(alternative, total) <==> 100 * alternative >= 38 * total
  {
    DivAtLeast(alternative * 100, total, SWITCH_THRESHOLD_PERCENTAGE);
  }

  /** The test is the 38 percent test except exactly when the percentage leaves 64 bits and
      what is left of it is below 38. */
  lemma {:induction false} SwitchThresholdIff(alternative: U64, total: U64)
    requires total > 0
    ensures (SwitchThreshold(alternative, total) <==> 100 * alternative >= 38 * total)
       <==> !(&& alternative * 100 / total > U64_MAX
              && (alternative * 100 / total) % (U64_MAX + 1) < 38)
  {
    DivAtLeast(alternative * 100, total, SWITCH_THRESHOLD_PERCENTAGE);
  }

  /** In particular it is for a stake within the total. */
  lemma {:induction false} SwitchWithinTotal(alternative: U64, total: U64)
    requires 0 < total && alternative <= total
    ensures SwitchThreshold(alternative, total) <==> 100 * alternative >= 38 * total
  {
    DivAtLeast(alternative * 100, total, 101);
    SwitchThresholdMeaning(alternative, total);
  }

  /** Beyond 64 bits the test can refuse any majority. */
  lemma {:induction false} SwitchThresholdWraps()
    ensures !SwitchThreshold(0x4000_0000_0000_0000, 1)
  {
    assert 0x4000_0000_0000_0000 * 100 == 25 * (U64_MAX + 1);
  }

  // ---------------------------------------------------------------------------------
  // The deepest shared ancestor

  /** `c` is an ancestor of both and every shared ancestor is an ancestor of `c`. */
  ghost predicate Deepest(nodes: Nodes, a: nat, b: nat, c: nat)
    requires ParentsBelow(nodes)
  {
    && IsAncestor(nodes, c, a) && IsAncestor(nodes, c, b)
    && forall d :: IsAncestor(nodes, d, a) && IsAncestor(nodes, d, b) ==> IsAncestor(nodes, d, c)
  }

  ghost predicate ShareAncestor(nodes: Nodes, a: nat, b: nat)
    requires ParentsBelow(nodes)
  {
    exists d :: IsAncestor(nodes, d, a) && IsAncestor(nodes, d, b)
  }

  /** The first slot of one chain that lies on the other is the deepest shared ancestor. */
  lemma {:induction false} FirstSharedIsDeepest(nodes: Nodes, a: nat, b: nat, k: nat)
    requires ParentsBelow(nodes) && k < |Ancestry(nodes, a)| && IsAncestor(nodes, Ancestry(nodes, a)[k], b)
    requires forall j :: 0 <= j < k ==> !IsAncestor(nodes, Ancestry(nodes, a)[j], b)
    ensures Deepest(nodes, a, b, Ancestry(nodes, a)[k])
  {
    hide IsAncestor;
    AncestryMeaning(nodes, a);
    var r := Ancestry(nodes, a);
    hide Ancestry;
    forall d | IsAncestor(nodes, d, a) && IsAncestor(nodes, d, b) ensures IsAncestor(nodes, d, r[k]) {
      var j :| 0 <= j < |r| && r[j] == d;
      assert j >= k;
      assert d <= r[k] by { if j > k { assert r[k] > r[j]; } }
      ChainLinear(nodes, d, r[k], a);
    }
  }

  /** The slots to replay run from a child of the shared ancestor up to the best slot, each
      the child of the one before. */
  ghost predicate ReplayPath(nodes: Nodes, common: nat, best: nat, path: seq<nat>) {
    && (path == [] ==> best == common)
    && (path != [] ==> path[|path| - 1] == best && path[0] in nodes && nodes[path[0]].parent == Some(common))
    && (forall i :: 0 < i < |path| ==> path[i] in nodes && nodes[path[i]].parent == Some(path[i - 1]))
  }

  method Reversed(s: seq<nat>) returns (r: seq<nat>)
    ensures |r| == |s| && forall i :: 0 <= i < |s| ==> r[i] == s[|s| - 1 - i]
  {
    r := [];
    for k := 0 to |s|
      invariant |r| == k && forall i :: 0 <= i < k ==> r[i] == s[k - 1 - i]
    {
      r := [s[k]] + r;
    }
  }

  lemma {:induction false} ReversedPrefixReplays(nodes: Nodes, best: nat, k: nat, path: seq<nat>)
    requires ParentsBelow(nodes) && k < |Ancestry(nodes, best)|
    requires |path| == k && forall i :: 0 <= i < k ==> path[i] == Ancestry(nodes, best)[..k][k - 1 - i]
    ensures ReplayPath(nodes, Ancestry(nodes, best)[k], best, path)
  {
    AncestryMeaning(nodes, best);
    var r := Ancestry(nodes, best);
    hide Ancestry, IsAncestor;
    forall i | 0 <= i < k ensures path[i] == r[k - 1 - i] {
      assert r[..k][k - 1 - i] == r[k - 1 - i];
    }
    forall i | 0 < i < |path| ensures path[i] in nodes && nodes[path[i]].parent == Some(path[i - 1]) {
      assert nodes[r[k - 1 - i]].parent == Some(r[k - 1 - i + 1]);
    }
    if k > 0 {
      assert nodes[r[k - 1]].parent == Some(r[k - 1 + 1]);
    }
  }

  // ---------------------------------------------------------------------------------
  // The decision

  /** The tower lets the vote through, or enough stake stands behind the other fork. */
  ghost predicate MaySwitch(tree: FC.ForkTree, tower: T.Tower)
    reads tree, tower
  {
    || (forall i :: 0 <= i < |tower.votes| ==> tower.votes[i].slot < tree.bestSlot)
    || (tree.bestSlot in tree.nodes && tree.nodes[tree.bestSlot].subtreeStake <= U64_MAX
        && SwitchThreshold(tree.nodes[tree.bestSlot].subtreeStake, tree.totalActiveStake))
  }

  /** A switch is planned exactly when the best slot forks away from the tip below a shared
      ancestor and the tower or the stake allows it; the plan rolls the tip back to the
      deepest shared ancestor and replays the child-by-child path to the best slot. */
  method CheckForkSwitch(tree: FC.ForkTree, tower: T.Tower, tip: nat) returns (plan: Option<Plan>)
    requires tree.Valid() && tree.bestSlot <= U64_MAX
    ensures plan.Some? <==>
              && ShareAncestor(tree.nodes, tree.bestSlot, tip)
              && !IsAncestor(tree.nodes, tip, tree.bestSlot)
              && MaySwitch(tree, tower)
    ensures plan.Some? && (exists i :: 0 <= i < |tower.votes| && tower.votes[i].slot >= tree.bestSlot) ==>
              && tree.bestSlot in tree.nodes
              && SwitchThreshold(tree.nodes[tree.bestSlot].subtreeStake, tree.totalActiveStake)
    ensures ShareAncestor(tree.nodes, tree.bestSlot, tip) && !IsAncestor(tree.nodes, tip, tree.bestSlot) ==>
              (forall i :: 0 <= i < |tower.votes| ==> tower.votes[i].slot < tree.bestSlot) ==> plan.Some?
    ensures plan.Some? ==>
              && plan.value.rollbackFrom == tip && plan.value.commonAncestor != tip
              && Deepest(tree.nodes, tree.bestSlot, tip, plan.value.commonAncestor)
              && ReplayPath(tree.nodes, plan.value.commonAncestor, tree.bestSlot, plan.value.replaySlots)
  {
    hide FS.Accounted, ChildrenLinked, FlagsAgree, Ancestry, SwitchThreshold;
    var best := tree.bestSlot;
    if best == tip {
      return None;
    }
    var bestChain := tree.GetAncestry(best);
    var tipChain := tree.GetAncestry(tip);
    AncestryMeaning(tree.nodes, best);
    AncestryMeaning(tree.nodes, tip);
    var k := 0;
    while k < |bestChain| && bestChain[k] !in tipChain
      invariant k <= |bestChain|
      invariant forall j :: 0 <= j < k ==> bestChain[j] !in tipChain
    {
      k := k + 1;
    }
    if k == |bestChain| {
      return None;
    }
    var common := bestChain[k];
    FirstSharedIsDeepest(tree.nodes, best, tip, k);
    assert common == tip <==> IsAncestor(tree.nodes, tip, best) by {
      if IsAncestor(tree.nodes, tip, best) {
        assert IsAncestor(tree.nodes, tip, tip);
        AncestorBelow(tree.nodes, tip, common);
        AncestorBelow(tree.nodes, common, tip);
      }
    }
    if common == tip {
      return None;
    }
    var locked := tower.CheckVoteLockout(best);
    if locked.Some? {
      if best !in tree.nodes {
        return None;
      }
      SubtreeStakeFits(tree, best);
      if !SwitchThreshold(tree.nodes[best].subtreeStake, tree.totalActiveStake) {
        return None;
      }
    }
    var path := Reversed(bestChain[..k]);
    ReversedPrefixReplays(tree.nodes, best, k, path);
    plan := Some(Plan(common, tip, path));
  }

  lemma {:induction false} SubtreeStakeFits(tree: FC.ForkTree, s: nat)
    requires tree.Valid() && s in tree.nodes
    ensures tree.nodes[s].subtreeStake <= U64_MAX
  {
    assert FS.NodeAccounted(s, tree.nodes[s], tree.voted, tree.weight, tree.credit[s]);
  }
}
