/** Sharing an epoch's inflation among the delegations (consensus/src/rewards.rs): points,
    the scaled value of a point, the split between staker and validator, and where the
    remainder of the divisions goes. */
module Rewards {
  import opened Arithmetic
  import opened Crypto
  import opened Ordered

  const SCALE: nat := 1_000_000

  datatype EpochCredits = EpochCredits(epoch: nat, credits: U64, previous: U64)
  datatype VoteState = VoteState(commission: U8, epochCredits: seq<EpochCredits>)
  datatype Delegation = Delegation(voter: Address, stake: U64)

  datatype RewardEntry = RewardEntry(stakeAccount: Address, voteAccount: Address, lamports: nat,
      commissionLamports: nat, postBalance: nat, commission: nat)

  type Partitions = map<nat, seq<RewardEntry>>

  datatype EpochRewards = EpochRewards(epoch: nat, totalRewards: nat, totalPoints: nat, pointValue: nat,
      partitions: Partitions)

  datatype RewardError = ZeroTotalStake | NoEpochCredits

  // ---------------------------------------------------------------------------------
  // Points

  /** The vote states by account; a repeated account keeps its last state. */
  function VoteMap(states: seq<(Address, VoteState)>, n: nat): (m: map<Address, VoteState>)
    requires n <= |states|
  {
    if n == 0 then map[] else VoteMap(states, n - 1)[states[n - 1].0 := states[n - 1].1]
  }

  /** The last state given for a vote account. */
  ghost predicate LastState(states: seq<(Address, VoteState)>, n: nat, voter: Address, j: nat)
    requires n <= |states|
  {
    j < n && states[j].0 == voter && forall k :: j < k < n ==> states[k].0 != voter
  }

  lemma {:induction false} VoteMapMeaning(states: seq<(Address, VoteState)>, n: nat, voter: Address)
    requires n <= |states|
    ensures voter in VoteMap(states, n) <==> exists j: nat :: LastState(states, n, voter, j)
    ensures forall j: nat :: LastState(states, n, voter, j) ==>
              voter in VoteMap(states, n) && VoteMap(states, n)[voter] == states[j].1
  {
    if n == 0 {
    } else {
      VoteMapMeaning(states, n - 1, voter);
      if states[n - 1].0 == voter {
        assert LastState(states, n, voter, n - 1);
      } else {
        if voter in VoteMap(states, n - 1) {
          var j: nat :| LastState(states, n - 1, voter, j);
          assert LastState(states, n, voter, j);
        }
        forall j: nat | LastState(states, n, voter, j) ensures LastState(states, n - 1, voter, j) { }
      }
    }
  }

  /** The credits earned in the epoch: its first entry, less the credits before it. */
  ghost predicate EarnedIn(entries: seq<EpochCredits>, epoch: nat, earned: nat) {
    || (earned == 0 && forall i :: 0 <= i < |entries| ==> entries[i].epoch != epoch)
    || exists i: nat :: FirstOf(entries, epoch, i) && earned == SaturatingSub(entries[i].credits, entries[i].previous)
  }

  ghost predicate FirstOf(entries: seq<EpochCredits>, epoch: nat, i: nat) {
    i < |entries| && entries[i].epoch == epoch && forall j :: 0 <= j < i ==> entries[j].epoch != epoch
  }

  function Earned(entries: seq<EpochCredits>, epoch: nat, i: nat): (earned: U64)
    requires i <= |entries|
    decreases |entries| - i
  {
    if i == |entries| then 0
    else if entries[i].epoch == epoch then SaturatingSub(entries[i].credits, entries[i].previous)
    else Earned(entries, epoch, i + 1)
  }

  lemma {:induction false} EarnedMeaning(entries: seq<EpochCredits>, epoch: nat, i: nat)
    requires i <= |entries| && forall j :: 0 <= j < i ==> entries[j].epoch != epoch
    ensures EarnedIn(entries, epoch, Earned(entries, epoch, i))
    decreases |entries| - i
  {
    if i < |entries| {
      if entries[i].epoch == epoch {
        assert FirstOf(entries, epoch, i);
      } else {
        EarnedMeaning(entries, epoch, i + 1);
      }
    }
  }

  function Credits(votes: map<Address, VoteState>, epoch: nat, voter: Address): (c: U64) {
    if voter in votes then Earned(votes[voter].epochCredits, epoch, 0) else 0
  }

  function Points(votes: map<Address, VoteState>, epoch: nat, d: Delegation): (p: nat) {
    Credits(votes, epoch, d.voter) * d.stake
  }

  /** Points are the credits the voter earned in the epoch times the stake. */
  lemma {:induction false} PointsMeaning(votes: map<Address, VoteState>, epoch: nat, d: Delegation)
    ensures exists earned: nat ::
              EarnedBy(votes, epoch, d.voter, earned) && Points(votes, epoch, d) == earned * d.stake
  {
    if d.voter in votes {
      EarnedMeaning(votes[d.voter].epochCredits, epoch, 0);
    }
    assert EarnedBy(votes, epoch, d.voter, Credits(votes, epoch, d.voter));
  }

  ghost predicate EarnedBy(votes: map<Address, VoteState>, epoch: nat, voter: Address, earned: nat) {
    if voter in votes then EarnedIn(votes[voter].epochCredits, epoch, earned) else earned == 0
  }

  function SumPoints(points: seq<nat>, n: nat): (s: nat)
    requires n <= |points|
  {
    if n == 0 then 0 else SumPoints(points, n - 1) + points[n - 1]
  }

  function CappedPoints(n: nat): (r: nat) {
    if n <= U128_MAX then n else U128_MAX
  }

  // ---------------------------------------------------------------------------------
  // Rewards

  function PointValue(inflation: U64, total: nat): (v: nat)
    requires total > 0
  {
    inflation * SCALE / total
  }

  function Reward(points: nat, value: nat): (r: nat) {
    points * value / SCALE
  }

  function SumRewards(points: seq<nat>, value: nat, n: nat): (s: nat)
    requires n <= |points|
  {
    if n == 0 then 0 else SumRewards(points, value, n - 1) + Reward(points[n - 1], value)
  }

  lemma {:induction false} DivSum(a: nat, b: nat)
    ensures a / SCALE + b / SCALE <= (a + b) / SCALE
  {
  }

  lemma {:induction false} RewardsWithinPoints(points: seq<nat>, value: nat, n: nat)
    requires n <= |points|
    ensures SumRewards(points, value, n) <= SumPoints(points, n) * value / SCALE
  {
    if n == 0 {
    } else {
      RewardsWithinPoints(points, value, n - 1);
      var before := SumPoints(points, n - 1);
      assert (before + points[n - 1]) * value == before * value + points[n - 1] * value;
      DivSum(before * value, points[n - 1] * value);
    }
  }

  lemma {:induction false} DivTimes(a: nat, d: nat)
    requires d > 0
    ensures (a / d) * d <= a < (a / d + 1) * d
  {
    assert a == (a / d) * d + a % d;
    assert (a / d + 1) * d == (a / d) * d + d;
  }

  lemma {:induction false} DivMonotone(a: nat, b: nat, d: nat)
    requires a <= b && d > 0
    ensures a / d <= b / d
  {
    if a / d > b / d {
      DivTimes(a, d);
      DivTimes(b, d);
      MulMonotone(b / d + 1, a / d, d);
    }
  }

  /** A total that does not fit in 128 bits makes a point worthless. */
  lemma {:induction false} CappedTotalIsWorthless(inflation: U64)
    ensures PointValue(inflation, U128_MAX) == 0
  {
  }

  /** The shares never exceed the inflation, and no step leaves its integer width. */
  lemma {:induction false} RewardsWithinInflation(points: seq<nat>, inflation: U64, n: nat)
    requires n <= |points| && SumPoints(points, |points|) > 0
    ensures var total := CappedPoints(SumPoints(points, |points|));
            SumRewards(points, PointValue(inflation, total), n) <= inflation
  {
    var sum := SumPoints(points, |points|);
    var total := CappedPoints(sum);
    var value := PointValue(inflation, total);
    RewardsWithinPoints(points, value, n);
    if sum <= U128_MAX {
      SumPointsMonotone(points, n, |points|);
      MulMonotone(SumPoints(points, n), sum, value);
      DivTimes(inflation * SCALE, total);
      DivMonotone(SumPoints(points, n) * value, inflation * SCALE, SCALE);
    } else {
      CappedTotalIsWorthless(inflation);
      assert SumPoints(points, n) * value == 0;
    }
  }

  lemma {:induction false} SumPointsMonotone(points: seq<nat>, i: nat, n: nat)
    requires i <= n <= |points|
    ensures SumPoints(points, i) <= SumPoints(points, n)
    decreases n
  {
    if i == n {
    } else {
      SumPointsMonotone(points, i, n - 1);
    }
  }

  /** Products of points and point value fit in 128 bits. */
  lemma {:induction false} ProductFits(points: seq<nat>, inflation: U64, i: nat)
    requires i < |points| && SumPoints(points, |points|) > 0
    ensures points[i] * PointValue(inflation, CappedPoints(SumPoints(points, |points|))) <= U128_MAX
  {
    var sum := SumPoints(points, |points|);
    var value := PointValue(inflation, CappedPoints(sum));
    if sum <= U128_MAX {
      SumPointsMonotone(points, i + 1, |points|);
      MulMonotone(points[i], sum, value);
      DivTimes(inflation * SCALE, sum);
    } else {
      CappedTotalIsWorthless(inflation);
      assert points[i] * value == 0;
    }
  }

  /** A share is never above its exact proportion of the inflation, and below it by less
      than one lamport plus one lamport per million points. */
  lemma {:induction false} ShareIsProportional(points: nat, total: nat, inflation: U64)
    requires 0 < total && points <= total
    ensures var r := Reward(points, PointValue(inflation, total));
            && r * total <= inflation * points
            && inflation * points * SCALE < (r + 1) * total * SCALE + points * total
  {
    var value := PointValue(inflation, total);
    var r := Reward(points, value);
    DivTimes(inflation * SCALE, total);
    DivTimes(points * value, SCALE);
    ShareBelow(points, total, inflation, value, r);
    ShareAbove(points, total, inflation, value, r);
  }

  lemma {:induction false} ShareBelow(points: nat, total: nat, inflation: nat, value: nat, r: nat)
    requires r * SCALE <= points * value && value * total <= inflation * SCALE
    ensures r * total <= inflation * points
  {
    MulMonotone(r * SCALE, points * value, total);
    MulMonotone(value * total, inflation * SCALE, points);
    assert (r * SCALE) * total == (r * total) * SCALE;
    assert (points * value) * total == (value * total) * points;
    assert (inflation * SCALE) * points == (inflation * points) * SCALE;
  }

  lemma {:induction false} ShareAbove(points: nat, total: nat, inflation: nat, value: nat, r: nat)
    requires points * value < (r + 1) * SCALE && inflation * SCALE < (value + 1) * total && total > 0
    ensures inflation * points * SCALE < (r + 1) * total * SCALE + points * total
  {
    MulMonotone(inflation * SCALE, (value + 1) * total, points);
    MulMonotone(points * value + 1, (r + 1) * SCALE, total);
    assert (inflation * SCALE) * points == inflation * points * SCALE;
    assert ((value + 1) * total) * points == (points * value) * total + points * total;
    assert (points * value + 1) * total == (points * value) * total + total;
    assert ((r + 1) * SCALE) * total == (r + 1) * total * SCALE;
  }

  // ---------------------------------------------------------------------------------
  // Entries and what they pay

  function Paid(e: RewardEntry): (p: nat) {
    e.lamports + e.commissionLamports
  }

  function PaidList(entries: seq<RewardEntry>, n: nat): (p: nat)
    requires n <= |entries|
  {
    if n == 0 then 0 else PaidList(entries, n - 1) + Paid(entries[n - 1])
  }

  /** What all entries of some partitions pay. */
  ghost function PaidTotal(parts: Partitions, keys: set<nat>): (p: nat)
    requires keys <= parts.Keys
  {
    if keys == {} then 0 else
      var k := Min(keys);
      PaidList(parts[k], |parts[k]|) + PaidTotal(parts, keys - {k})
  }

  lemma {:induction false} PaidListSame(a: seq<RewardEntry>, b: seq<RewardEntry>, n: nat)
    requires n <= |a| && n <= |b| && forall i :: 0 <= i < n ==> a[i] == b[i]
    ensures PaidList(a, n) == PaidList(b, n)
  {
    if n == 0 {
    } else {
      PaidListSame(a, b, n - 1);
    }
  }

  lemma {:induction false} PaidListUpdate(a: seq<RewardEntry>, i: nat, e: RewardEntry, n: nat)
    requires i < n <= |a|
    ensures PaidList(a[i := e], n) + Paid(a[i]) == PaidList(a, n) + Paid(e)
  {
    if i == n - 1 {
      PaidListSame(a, a[i := e], n - 1);
    } else {
      PaidListUpdate(a, i, e, n - 1);
    }
  }

  lemma {:induction false} PaidTotalSame(a: Partitions, b: Partitions, keys: set<nat>)
    requires keys <= a.Keys && keys <= b.Keys && forall k :: k in keys ==> a[k] == b[k]
    ensures PaidTotal(a, keys) == PaidTotal(b, keys)
    decreases |keys|
  {
    hide Min;
    if keys == {} {
    } else {
      PaidTotalSame(a, b, keys - {Min(keys)});
    }
  }

  lemma {:induction false} PaidTotalSplit(parts: Partitions, keys: set<nat>, p: nat)
    requires keys <= parts.Keys && p in keys
    ensures PaidTotal(parts, keys) == PaidList(parts[p], |parts[p]|) + PaidTotal(parts, keys - {p})
    decreases |keys|
  {
    hide Min;
    var m := Min(keys);
    if m == p {
    } else {
      PaidTotalSplit(parts, keys - {m}, p);
      var rest := keys - {p};
      assert m in rest && Min(rest) in keys;
      assert Min(rest) == m;
      assert (keys - {m}) - {p} == rest - {m};
    }
  }

  function Push(parts: Partitions, p: nat, e: RewardEntry): (r: Partitions) {
    parts[p := (if p in parts then parts[p] else []) + [e]]
  }

  lemma {:induction false} PushPays(parts: Partitions, p: nat, e: RewardEntry)
    ensures PaidTotal(Push(parts, p, e), Push(parts, p, e).Keys) == PaidTotal(parts, parts.Keys) + Paid(e)
  {
    hide PaidTotal;
    var t := Push(parts, p, e);
    var was := if p in parts then parts[p] else [];
    PaidListSame(was, t[p], |was|);
    PaidTotalSplit(t, t.Keys, p);
    var rest := t.Keys - {p};
    PaidTotalSame(parts, t, rest);
    if p in parts {
      PaidTotalSplit(parts, parts.Keys, p);
      assert parts.Keys - {p} == rest;
    } else {
      assert parts.Keys == rest;
    }
  }

  lemma {:induction false} ReplacePays(parts: Partitions, p: nat, i: nat, e: RewardEntry)
    requires p in parts && i < |parts[p]|
    ensures var t := parts[p := parts[p][i := e]];
            PaidTotal(t, t.Keys) + Paid(parts[p][i]) == PaidTotal(parts, parts.Keys) + Paid(e)
  {
    hide PaidTotal;
    var t := parts[p := parts[p][i := e]];
    PaidListUpdate(parts[p], i, e, |parts[p]|);
    assert t.Keys == parts.Keys;
    PaidTotalSplit(t, t.Keys, p);
    PaidTotalSplit(parts, parts.Keys, p);
    PaidTotalSame(parts, t, parts.Keys - {p});
  }

  lemma {:induction false} EntryWithinList(entries: seq<RewardEntry>, i: nat, n: nat)
    requires i < n <= |entries|
    ensures Paid(entries[i]) <= PaidList(entries, n)
  {
    if i == n - 1 {
    } else {
      EntryWithinList(entries, i, n - 1);
    }
  }

  lemma {:induction false} EntryWithinTotal(parts: Partitions, p: nat, i: nat)
    requires p in parts && i < |parts[p]|
    ensures Paid(parts[p][i]) <= PaidTotal(parts, parts.Keys)
  {
    EntryWithinList(parts[p], i, |parts[p]|);
    PaidTotalSplit(parts, parts.Keys, p);
  }

  // ---------------------------------------------------------------------------------
  // The whole distribution

  function Commission(votes: map<Address, VoteState>, voter: Address): (c: nat)
    ensures c <= 100
  {
    if voter !in votes then 0 else if votes[voter].commission <= 100 then votes[voter].commission else 100
  }

  function EntryFor(votes: map<Address, VoteState>, account: Address, d: Delegation, reward: nat): (e: RewardEntry) {
    var commission := Commission(votes, d.voter);
    var validatorShare := reward * commission / 100;
    var stakerShare := SaturatingSub(reward, validatorShare);
    RewardEntry(account, d.voter, stakerShare, validatorShare, SaturatingAdd(d.stake, stakerShare), commission)
  }

  /** The split hands out the whole reward, and the validator at most its commission. */
  lemma {:induction false} EntryPays(votes: map<Address, VoteState>, account: Address, d: Delegation, reward: nat)
    ensures var e := EntryFor(votes, account, d, reward);
            && Paid(e) == reward
            && e.commissionLamports * 100 <= reward * Commission(votes, d.voter) < (e.commissionLamports + 1) * 100
  {
    var c := Commission(votes, d.voter);
    MulMonotone(c, 100, reward);
    DivTimes(reward * c, 100);
  }

  datatype Epoch = Epoch(votes: map<Address, VoteState>, delegations: seq<(Address, Delegation)>, points: seq<nat>,
      value: nat, partitionOf: Address -> nat)

  /** The entries of the first `n` delegations, grouped by partition; a share below one
      lamport gets none. */
  function Distribute(e: Epoch, n: nat): (parts: Partitions)
    requires n <= |e.delegations| == |e.points|
  {
    if n == 0 then map[] else
      var before := Distribute(e, n - 1);
      var reward := Reward(e.points[n - 1], e.value);
      if reward == 0 then before
      else Push(before, e.partitionOf(e.delegations[n - 1].0),
          EntryFor(e.votes, e.delegations[n - 1].0, e.delegations[n - 1].1, reward))
  }

  lemma {:induction false} DistributePays(e: Epoch, n: nat)
    requires n <= |e.delegations| == |e.points|
    ensures PaidTotal(Distribute(e, n), Distribute(e, n).Keys) == SumRewards(e.points, e.value, n)
    decreases n
  {
    hide PaidTotal, Push, EntryFor, Reward, Paid;
    if n == 0 {
      PaidNothing(Distribute(e, 0));
    } else {
      DistributePays(e, n - 1);
      var reward := Reward(e.points[n - 1], e.value);
      if reward != 0 {
        var d := e.delegations[n - 1];
        EntryPays(e.votes, d.0, d.1, reward);
        PushPays(Distribute(e, n - 1), e.partitionOf(d.0), EntryFor(e.votes, d.0, d.1, reward));
      }
    }
  }

  lemma {:induction false} PaidNothing(parts: Partitions)
    requires parts == map[]
    ensures PaidTotal(parts, parts.Keys) == 0
  {
  }

  /** Some delegation earns at least one lamport. */
  ghost predicate SomeoneEarns(e: Epoch, n: nat)
    requires n <= |e.points|
  {
    exists i :: 0 <= i < n && Reward(e.points[i], e.value) > 0
  }

  /** Partitions are never empty, and there are none exactly if nobody earns. */
  lemma {:induction false} DistributeOccupied(e: Epoch, n: nat)
    requires n <= |e.delegations| == |e.points|
    ensures forall p :: p in Distribute(e, n) ==> Distribute(e, n)[p] != []
    ensures Distribute(e, n) == map[] <==> !SomeoneEarns(e, n)
    decreases n
  {
    hide Reward, EntryFor;
    if n == 0 {
    } else {
      DistributeOccupied(e, n - 1);
      var d, reward := e.delegations[n - 1], Reward(e.points[n - 1], e.value);
      if reward != 0 {
        assert SomeoneEarns(e, n);
        assert e.partitionOf(d.0) in Distribute(e, n);
      } else {
        assert SomeoneEarns(e, n) <==> SomeoneEarns(e, n - 1);
      }
    }
  }

  /** `entry` is the one of delegation `i`. */
  ghost predicate Is(e: Epoch, i: nat, entry: RewardEntry) {
    && i < |e.delegations| == |e.points| && Reward(e.points[i], e.value) > 0
    && entry == EntryFor(e.votes, e.delegations[i].0, e.delegations[i].1, Reward(e.points[i], e.value))
  }

  ghost predicate FromDelegation(e: Epoch, n: nat, p: nat, entry: RewardEntry) {
    exists i :: 0 <= i < n && Is(e, i, entry) && e.partitionOf(e.delegations[i].0) == p
  }

  /** Every entry belongs to a delegation and sits in the partition of its stake account. */
  lemma {:induction false} EntriesAreShares(e: Epoch, n: nat, p: nat, k: nat)
    requires n <= |e.delegations| == |e.points| && p in Distribute(e, n) && k < |Distribute(e, n)[p]|
    ensures FromDelegation(e, n, p, Distribute(e, n)[p][k])
    decreases n
  {
    hide Reward, EntryFor;
    if n == 0 {
    } else {
      var before := Distribute(e, n - 1);
      var entry := Distribute(e, n)[p][k];
      if p in before && k < |before[p]| {
        EntriesAreShares(e, n - 1, p, k);
        var i :| 0 <= i < n - 1 && Is(e, i, before[p][k]) && e.partitionOf(e.delegations[i].0) == p;
        assert Is(e, i, entry);
      } else {
        assert Is(e, n - 1, entry);
      }
    }
  }

  /** Every delegation that earns has its entry. */
  lemma {:induction false} SharesHaveEntries(e: Epoch, n: nat, i: nat)
    requires i < n <= |e.delegations| == |e.points| && Reward(e.points[i], e.value) > 0
    ensures var p := e.partitionOf(e.delegations[i].0);
            p in Distribute(e, n) && exists k :: 0 <= k < |Distribute(e, n)[p]| && Is(e, i, Distribute(e, n)[p][k])
    decreases n
  {
    hide Reward, EntryFor;
    var p := e.partitionOf(e.delegations[i].0);
    var now, before := Distribute(e, n), Distribute(e, n - 1);
    if i == n - 1 {
      assert Is(e, i, now[p][|now[p]| - 1]);
    } else {
      SharesHaveEntries(e, n - 1, i);
      var k :| 0 <= k < |before[p]| && Is(e, i, before[p][k]);
      assert now[p][k] == before[p][k];
    }
  }

  // ---------------------------------------------------------------------------------
  // Whom the entries pay

  /** An entry in partition `p` pays the stake account and the vote account of delegation `i`:
      it files their balance and commission, and belongs to the partition of the former. */
  ghost predicate PaysDelegation(e: Epoch, i: nat, p: nat, entry: RewardEntry) {
    && i < |e.delegations|
    && var d := e.delegations[i];
       && entry.stakeAccount == d.0 && entry.voteAccount == d.1.voter && p == e.partitionOf(d.0)
       && entry.postBalance == (if d.1.stake + entry.lamports <= U64_MAX then d.1.stake + entry.lamports else U64_MAX)
       && entry.commission <= 100
       && (d.1.voter !in e.votes ==> entry.commission == 0)
       && (d.1.voter in e.votes && e.votes[d.1.voter].commission <= 100 ==>
             entry.commission == e.votes[d.1.voter].commission)
       && (d.1.voter in e.votes && e.votes[d.1.voter].commission > 100 ==> entry.commission == 100)
  }

  ghost predicate PaysSomeone(e: Epoch, p: nat, entry: RewardEntry) {
    exists i :: PaysDelegation(e, i, p, entry)
  }

  ghost predicate AllPaySomeone(e: Epoch, parts: Partitions) {
    forall p, k :: p in parts && 0 <= k < |parts[p]| ==> PaysSomeone(e, p, parts[p][k])
  }

  ghost predicate IsPaid(e: Epoch, i: nat, parts: Partitions)
    requires i < |e.delegations|
  {
    var p := e.partitionOf(e.delegations[i].0);
    p in parts && exists k :: 0 <= k < |parts[p]| && PaysDelegation(e, i, p, parts[p][k])
  }

  ghost predicate EarnersPaid(e: Epoch, parts: Partitions)
    requires |e.delegations| == |e.points|
  {
    forall i :: 0 <= i < |e.points| && Reward(e.points[i], e.value) > 0 ==> IsPaid(e, i, parts)
  }

  /** No two entries pay the same stake account. */
  ghost predicate OncePerAccount(parts: Partitions) {
    forall p, k, q, j :: p in parts && q in parts && 0 <= k < |parts[p]| && 0 <= j < |parts[q]| ==>
      parts[p][k].stakeAccount == parts[q][j].stakeAccount ==> p == q && k == j
  }

  ghost predicate DistinctAccounts(ds: seq<(Address, Delegation)>) {
    forall i, j :: 0 <= i < j < |ds| ==> ds[i].0 != ds[j].0
  }

  lemma {:induction false} ShareFields(e: Epoch, i: nat, entry: RewardEntry)
    requires Is(e, i, entry)
    ensures PaysDelegation(e, i, e.partitionOf(e.delegations[i].0), entry)
  {
    hide Reward;
  }

  lemma {:induction false} SharesPay(e: Epoch, n: nat)
    requires n == |e.delegations| == |e.points|
    ensures AllPaySomeone(e, Distribute(e, n)) && EarnersPaid(e, Distribute(e, n))
  {
    hide Distribute, Reward, EntryFor, PaysDelegation;
    var parts := Distribute(e, n);
    forall p, k | p in parts && 0 <= k < |parts[p]| ensures PaysSomeone(e, p, parts[p][k]) {
      EntriesAreShares(e, n, p, k);
      var i :| 0 <= i < n && Is(e, i, parts[p][k]) && e.partitionOf(e.delegations[i].0) == p;
      ShareFields(e, i, parts[p][k]);
    }
    forall i | 0 <= i < n && Reward(e.points[i], e.value) > 0 ensures IsPaid(e, i, parts) {
      SharesHaveEntries(e, n, i);
      var p := e.partitionOf(e.delegations[i].0);
      var k :| 0 <= k < |parts[p]| && Is(e, i, parts[p][k]);
      ShareFields(e, i, parts[p][k]);
    }
  }

  lemma {:induction false} SharesOnce(e: Epoch, n: nat)
    requires n <= |e.delegations| == |e.points| && DistinctAccounts(e.delegations)
    ensures OncePerAccount(Distribute(e, n))
    decreases n
  {
    hide Reward, EntryFor;
    if n == 0 {
    } else {
      SharesOnce(e, n - 1);
      var before: Partitions, account := Distribute(e, n - 1), e.delegations[n - 1].0;
      forall p, k | p in before && 0 <= k < |before[p]| ensures before[p][k].stakeAccount != account {
        EarlierAccount(e, n - 1, p, k);
      }
      var reward := Reward(e.points[n - 1], e.value);
      if reward != 0 {
        assert EntryFor(e.votes, account, e.delegations[n - 1].1, reward).stakeAccount == account by {
          AccountNamed(e.votes, account, e.delegations[n - 1].1, reward);
        }
        PushOnce(before, e.partitionOf(account), EntryFor(e.votes, account, e.delegations[n - 1].1, reward));
      }
    }
  }

  lemma {:induction false} AccountNamed(votes: map<Address, VoteState>, account: Address, d: Delegation, reward: nat)
    ensures EntryFor(votes, account, d, reward).stakeAccount == account
  {
  }

  lemma {:induction false} EarlierAccount(e: Epoch, n: nat, p: nat, k: nat)
    requires n < |e.delegations| == |e.points| && DistinctAccounts(e.delegations)
    requires p in Distribute(e, n) && k < |Distribute(e, n)[p]|
    ensures Distribute(e, n)[p][k].stakeAccount != e.delegations[n].0
  {
    hide Distribute, Reward, EntryFor;
    var entry := Distribute(e, n)[p][k];
    EntriesAreShares(e, n, p, k);
    var i :| 0 <= i < n && Is(e, i, entry) && e.partitionOf(e.delegations[i].0) == p;
    ShareFields(e, i, entry);
  }

  lemma {:induction false} PushOnce(parts: Partitions, p: nat, entry: RewardEntry)
    requires OncePerAccount(parts)
    requires forall q, k :: q in parts && 0 <= k < |parts[q]| ==> parts[q][k].stakeAccount != entry.stakeAccount
    ensures OncePerAccount(Push(parts, p, entry))
  {
    var now, n := Push(parts, p, entry), if p in parts then |parts[p]| else 0;
    forall q, k | q in now && 0 <= k < |now[q]|
      ensures q == p && k == n ==> now[q][k] == entry
      ensures !(q == p && k == n) ==> q in parts && k < |parts[q]| && now[q][k] == parts[q][k]
    {
    }
  }

  /** Adding the remainder to one entry. */
  function Topped(parts: Partitions, p: nat, i: nat, extra: nat): (r: Partitions)
    requires p in parts && i < |parts[p]|
  {
    var e := parts[p][i];
    parts[p := parts[p][i := e.(lamports := SaturatingAdd(e.lamports, extra),
        postBalance := SaturatingAdd(e.postBalance, extra))]]
  }

  lemma {:induction false} ToppedPays(parts: Partitions, p: nat, i: nat, extra: nat)
    requires p in parts && i < |parts[p]| && PaidTotal(parts, parts.Keys) + extra <= U64_MAX
    ensures PaidTotal(Topped(parts, p, i, extra), Topped(parts, p, i, extra).Keys) ==
              PaidTotal(parts, parts.Keys) + extra
  {
    hide PaidTotal;
    EntryWithinTotal(parts, p, i);
    var e := parts[p][i];
    ReplacePays(parts, p, i,
        e.(lamports := SaturatingAdd(e.lamports, extra), postBalance := SaturatingAdd(e.postBalance, extra)));
  }

  /** The remainder changes nothing about whom an entry pays. */
  lemma {:induction false} ToppedKeeps(e: Epoch, parts: Partitions, p: nat, extra: nat)
    requires |e.delegations| == |e.points| && p in parts && 0 < |parts[p]|
    requires parts[p][0].lamports + extra <= U64_MAX && AllPaySomeone(e, parts) && EarnersPaid(e, parts)
    ensures AllPaySomeone(e, Topped(parts, p, 0, extra)) && EarnersPaid(e, Topped(parts, p, 0, extra))
    ensures OncePerAccount(parts) ==> OncePerAccount(Topped(parts, p, 0, extra))
  {
    hide Reward, PaysDelegation;
    var now := Topped(parts, p, 0, extra);
    forall q, k | q in now && 0 <= k < |now[q]| ensures PaysSomeone(e, q, now[q][k]) {
      assert PaysSomeone(e, q, parts[q][k]);
      var i :| PaysDelegation(e, i, q, parts[q][k]);
      ToppedEntry(e, parts, p, extra, i, q, k);
    }
    forall i | 0 <= i < |e.points| && Reward(e.points[i], e.value) > 0 ensures IsPaid(e, i, now) {
      assert IsPaid(e, i, parts);
      var q := e.partitionOf(e.delegations[i].0);
      var k :| 0 <= k < |parts[q]| && PaysDelegation(e, i, q, parts[q][k]);
      ToppedEntry(e, parts, p, extra, i, q, k);
    }
    forall q, k | q in now && 0 <= k < |now[q]| ensures now[q][k].stakeAccount == parts[q][k].stakeAccount { }
  }

  lemma {:induction false} ToppedEntry(e: Epoch, parts: Partitions, p: nat, extra: nat, i: nat, q: nat, k: nat)
    requires p in parts && 0 < |parts[p]| && parts[p][0].lamports + extra <= U64_MAX
    requires q in parts && k < |parts[q]| && PaysDelegation(e, i, q, parts[q][k])
    ensures var now := Topped(parts, p, 0, extra);
            q in now && k < |now[q]| && PaysDelegation(e, i, q, now[q][k])
  {
  }

  function EpochOf(epoch: nat, inflation: U64, states: seq<(Address, VoteState)>,
      delegations: seq<(Address, Delegation)>, partitionOf: Address -> nat): (e: Epoch)
  {
    var votes := VoteMap(states, |states|);
    var points := seq(|delegations|, (i: nat) requires i < |delegations| => Points(votes, epoch, delegations[i].1));
    var total := CappedPoints(SumPoints(points, |points|));
    Epoch(votes, delegations, points, if total == 0 then 0 else PointValue(inflation, total), partitionOf)
  }

  method CreditsOf(votes: map<Address, VoteState>, epoch: nat, voter: Address) returns (c: U64)
    ensures c == Credits(votes, epoch, voter)
    ensures voter in votes ==> EarnedIn(votes[voter].epochCredits, epoch, c)
  {
    if voter !in votes {
      return 0;
    }
    var entries := votes[voter].epochCredits;
    EarnedMeaning(entries, epoch, 0);
    var i := 0;
    while i < |entries| && entries[i].epoch != epoch
      invariant i <= |entries| && Earned(entries, epoch, i) == Earned(entries, epoch, 0)
    {
      i := i + 1;
    }
    c := if i < |entries| then SaturatingSub(entries[i].credits, entries[i].previous) else 0;
  }

  method TotalPoints(votes: map<Address, VoteState>, epoch: nat, delegations: seq<(Address, Delegation)>)
    returns (points: seq<nat>, total: nat)
    ensures |points| == |delegations|
    ensures forall i :: 0 <= i < |points| ==> points[i] == Points(votes, epoch, delegations[i].1) <= U128_MAX
    ensures total == CappedPoints(SumPoints(points, |points|))
  {
    points, total := [], 0;
    for n := 0 to |delegations|
      invariant |points| == n && total == CappedPoints(SumPoints(points, n))
      invariant forall i :: 0 <= i < n ==> points[i] == Points(votes, epoch, delegations[i].1) <= U128_MAX
    {
      var credits := CreditsOf(votes, epoch, delegations[n].1.voter);
      MulMonotone(credits, U64_MAX, delegations[n].1.stake);
      var p: nat := credits * delegations[n].1.stake;
      SumPointsPrefix(points, p, n);
      points := points + [p];
      total := if total + p <= U128_MAX then total + p else U128_MAX;
    }
  }

  lemma {:induction false} SumPointsPrefix(points: seq<nat>, p: nat, n: nat)
    requires n <= |points|
    ensures SumPoints(points + [p], n) == SumPoints(points, n)
  {
    if n == 0 {
    } else {
      SumPointsPrefix(points, p, n - 1);
    }
  }

  method BuildVoteMap(states: seq<(Address, VoteState)>) returns (votes: map<Address, VoteState>)
    ensures votes == VoteMap(states, |states|)
  {
    votes := map[];
    for n := 0 to |states|
      invariant votes == VoteMap(states, n)
    {
      votes := votes[states[n].0 := states[n].1];
    }
  }

  lemma {:induction false} NothingEarned(e: Epoch, n: nat)
    requires n <= |e.points|
    ensures !SomeoneEarns(e, n) ==> SumRewards(e.points, e.value, n) == 0
  {
    hide Reward;
    if n > 0 && !SomeoneEarns(e, n) {
      assert !SomeoneEarns(e, n - 1);
      NothingEarned(e, n - 1);
    }
  }

  /** Splits every share and files it under its partition. */
  method ShareOut(e: Epoch, inflation: U64) returns (parts: Partitions, distributed: nat)
    requires |e.delegations| == |e.points| && SumPoints(e.points, |e.points|) > 0
    requires e.value == PointValue(inflation, CappedPoints(SumPoints(e.points, |e.points|)))
    ensures parts == Distribute(e, |e.delegations|)
    ensures distributed == SumRewards(e.points, e.value, |e.points|) <= inflation
  {
    hide Reward, PointValue, SumPoints, CappedPoints;
    parts, distributed := map[], 0;
    for n := 0 to |e.points|
      invariant parts == Distribute(e, n) && distributed == SumRewards(e.points, e.value, n) <= inflation
    {
      RewardsWithinInflation(e.points, inflation, n + 1);
      var reward := Reward(e.points[n], e.value);
      if reward != 0 {
        var account, d := e.delegations[n].0, e.delegations[n].1;
        EntryPays(e.votes, account, d, reward);
        var entry := EntryFor(e.votes, account, d, reward);
        parts := Push(parts, e.partitionOf(account), entry);
        distributed := SaturatingAdd(distributed, entry.lamports + entry.commissionLamports);
      }
    }
  }

  /** Either there is nothing to share points over, or the whole inflation is handed out,
      or nobody earns a lamport and nothing is. */
  method CalculateEpochRewards(epoch: nat, inflation: U64, states: seq<(Address, VoteState)>,
      delegations: seq<(Address, Delegation)>, partitionOf: Address -> nat)
      returns (r: Result<EpochRewards, RewardError>)
    ensures var e := EpochOf(epoch, inflation, states, delegations, partitionOf);
            && (r == Err(ZeroTotalStake) <==> delegations == [])
            && (r == Err(NoEpochCredits) <==> delegations != [] && SumPoints(e.points, |e.points|) == 0)
            && (r.Ok? ==>
                  && r.value.epoch == epoch
                  && r.value.totalPoints == CappedPoints(SumPoints(e.points, |e.points|))
                  && PaidTotal(r.value.partitions, r.value.partitions.Keys) == r.value.totalRewards
                  && r.value.totalRewards == (if SomeoneEarns(e, |e.points|) then inflation else 0)
                  && r.value.pointValue == e.value % U64_LIMIT
                  && AllPaySomeone(e, r.value.partitions) && EarnersPaid(e, r.value.partitions)
                  && (DistinctAccounts(delegations) ==> OncePerAccount(r.value.partitions))
                  && SharesOrTopped(Distribute(e, |delegations|), r.value.partitions, inflation))
  {
    hide PaidTotal, Distribute, Push, EntryFor, Reward, Topped, Min, AllPaySomeone, EarnersPaid, OncePerAccount;
    if |delegations| == 0 {
      return Err(ZeroTotalStake);
    }
    var votes := BuildVoteMap(states);
    var points, total := TotalPoints(votes, epoch, delegations);
    ghost var e := EpochOf(epoch, inflation, states, delegations, partitionOf);
    assert points == e.points;
    if total == 0 {
      return Err(NoEpochCredits);
    }
    var value := PointValue(inflation, total);
    var parts, distributed := ShareOut(Epoch(votes, delegations, points, value, partitionOf), inflation);
    assert e == Epoch(votes, delegations, points, value, partitionOf);
    DistributePays(e, |delegations|);
    DistributeOccupied(e, |delegations|);
    RewardsWithinInflation(points, inflation, |points|);
    var remainder := SaturatingSub(inflation, distributed);
    NothingEarned(e, |points|);
    SharesPay(e, |delegations|);
    if DistinctAccounts(delegations) { SharesOnce(e, |delegations|); }
    if remainder > 0 && |parts| > 0 {
      assert parts.Keys != {};
      var p :| p in parts.Keys;
      assert parts[p] != [];
      ToppedPays(parts, p, 0, remainder);
      EntryWithinTotal(parts, p, 0);
      ToppedKeeps(e, parts, p, remainder);
      parts := Topped(parts, p, 0, remainder);
      distributed := SaturatingAdd(distributed, remainder);
    }
    r := Ok(EpochRewards(epoch, distributed, total, value % (U64_MAX + 1), parts));
  }

  /** The entries are the shares, except that one of them may carry the remainder. */
  ghost predicate SharesOrTopped(shares: Partitions, parts: Partitions, inflation: nat) {
    || parts == shares
    || exists p :: p in shares && |shares[p]| > 0 && PaidTotal(shares, shares.Keys) <= inflation
                   && parts == Topped(shares, p, 0, inflation - PaidTotal(shares, shares.Keys))
  }
}
