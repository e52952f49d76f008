/** Effective stakes at an epoch boundary (consensus/src/bank_stake.rs): what each delegation
    counts for, what each validator has after penalties, and the total. */
module EpochStakes {
  import opened Arithmetic
  import opened Crypto
  import opened Sums

  const FULL_RATE: nat := 10_000

  datatype Delegation = Delegation(voter: Address, stake: U64, activationEpoch: U64, deactivationEpoch: U64, rate: nat)

  datatype DelegationError = ActivationAfterDeactivation | RateAboveFull

  predicate WellFormed(d: Delegation) {
    d.activationEpoch <= d.deactivationEpoch && d.rate <= FULL_RATE
  }

  predicate ActiveIn(d: Delegation, epoch: nat) {
    d.activationEpoch <= epoch <= d.deactivationEpoch
  }

  /** Warming up in the first epoch, cooling down in the last, whole in between. */
  function Effective(d: Delegation, epoch: nat): (s: nat)
    requires WellFormed(d)
  {
    if d.activationEpoch == epoch then d.stake * d.rate / FULL_RATE
    else if d.deactivationEpoch == epoch then d.stake * (FULL_RATE - d.rate) / FULL_RATE
    else d.stake
  }

  lemma {:induction false} PartWithin(stake: nat, rate: nat)
    requires rate <= FULL_RATE
    ensures stake * rate / FULL_RATE <= stake
  {
    MulMonotone(rate, FULL_RATE, stake);
    assert stake * rate <= stake * FULL_RATE;
  }

  /** A delegation never counts for more than its stake, so it fits in 64 bits. */
  lemma {:induction false} EffectiveWithin(d: Delegation, epoch: nat)
    requires WellFormed(d)
    ensures Effective(d, epoch) <= d.stake
  {
    PartWithin(d.stake, d.rate);
    PartWithin(d.stake, FULL_RATE - d.rate);
  }

  /** What counts: of an active delegation in its first epoch the rate, in its last the rest,
      to the lamport below, and in between all of it. */
  lemma {:induction false} EffectiveMeaning(d: Delegation, epoch: nat)
    requires WellFormed(d)
    ensures var s := Effective(d, epoch);
            if epoch == d.activationEpoch then 10_000 * s <= d.stake * d.rate < 10_000 * (s + 1)
            else if epoch == d.deactivationEpoch then 10_000 * s <= d.stake * (10_000 - d.rate) < 10_000 * (s + 1)
            else s == d.stake
  {
  }

  /** The validator behind a vote account, or the account itself when it is unknown. */
  function Identity(votes: map<Address, Address>, voter: Address): (id: Address) {
    if voter in votes then votes[voter] else voter
  }

  type Delegations = map<Address, Delegation>

  ghost predicate AllWellFormed(ds: Delegations) {
    forall a :: a in ds ==> WellFormed(ds[a])
  }

  /** What each delegation counts for; nothing outside its active epochs. */
  ghost function Weights(ds: Delegations, epoch: nat): (w: map<Address, nat>)
    requires AllWellFormed(ds)
  {
    map a | a in ds && ActiveIn(ds[a], epoch) :: Effective(ds[a], epoch)
  }

  /** The active stake accounts of `accounts` that back validator `id`. */
  ghost function Backing(ds: Delegations, votes: map<Address, Address>, epoch: nat, accounts: set<Address>,
      id: Address): (r: set<Address>)
  {
    set a | a in ds && a in accounts && ActiveIn(ds[a], epoch) && Identity(votes, ds[a].voter) == id
  }

  /** A stake account backs the node of its vote account, or the vote account itself when its
      node is not known, from its activation to its deactivation. */
  lemma {:induction false} BackingMeaning(ds: Delegations, votes: map<Address, Address>, epoch: nat, id: Address,
      a: Address)
    ensures a in Backing(ds, votes, epoch, ds.Keys, id) <==>
              && a in ds && ds[a].activationEpoch <= epoch <= ds[a].deactivationEpoch
              && (ds[a].voter in votes ==> votes[ds[a].voter] == id)
              && (ds[a].voter !in votes ==> ds[a].voter == id)
  {
  }

  ghost predicate StakeAt(ds: Delegations, votes: map<Address, Address>, epoch: nat, accounts: set<Address>,
      stakes: map<Address, nat>, id: Address)
    requires AllWellFormed(ds)
  {
    var backing := Backing(ds, votes, epoch, accounts, id);
    && (id in stakes <==> backing != {})
    && (id in stakes ==>
        backing <= Weights(ds, epoch).Keys && stakes[id] == Capped(StakeSum(Weights(ds, epoch), backing)))
  }

  /** Every validator has the capped sum over the accounts that back it. */
  ghost predicate Gross(ds: Delegations, votes: map<Address, Address>, epoch: nat, accounts: set<Address>,
      stakes: map<Address, nat>)
    requires AllWellFormed(ds)
  {
    forall id :: StakeAt(ds, votes, epoch, accounts, stakes, id)
  }

  /** The validators some active account backs. */
  ghost function Backed(ds: Delegations, votes: map<Address, Address>, epoch: nat): (r: set<Address>) {
    set a | a in ds && ActiveIn(ds[a], epoch) :: Identity(votes, ds[a].voter)
  }

  /** What every validator has before penalties. */
  ghost function GrossOf(ds: Delegations, votes: map<Address, Address>, epoch: nat): (r: map<Address, nat>)
    requires AllWellFormed(ds)
  {
    map id | id in Backed(ds, votes, epoch) :: BackedBy(ds, votes, epoch, id)
  }

  ghost function BackedBy(ds: Delegations, votes: map<Address, Address>, epoch: nat, id: Address): (r: nat)
    requires AllWellFormed(ds)
  {
    Capped(StakeSum(Weights(ds, epoch), Backing(ds, votes, epoch, ds.Keys, id)))
  }

  lemma {:induction false} GrossIs(ds: Delegations, votes: map<Address, Address>, epoch: nat, stakes: map<Address, nat>)
    requires AllWellFormed(ds) && Gross(ds, votes, epoch, ds.Keys, stakes)
    ensures stakes == GrossOf(ds, votes, epoch)
  {
    hide StakeSum, Capped, Effective;
    var all := GrossOf(ds, votes, epoch);
    forall id ensures (id in stakes <==> id in all) && (id in all ==> stakes[id] == all[id]) {
      assert StakeAt(ds, votes, epoch, ds.Keys, stakes, id);
      if id in all {
        var a :| a in ds && ActiveIn(ds[a], epoch) && Identity(votes, ds[a].voter) == id;
        assert a in Backing(ds, votes, epoch, ds.Keys, id);
      }
      if id in stakes {
        var a :| a in Backing(ds, votes, epoch, ds.Keys, id);
      }
    }
  }

  lemma {:induction false} GrossHolds(ds: Delegations, votes: map<Address, Address>, epoch: nat)
    requires AllWellFormed(ds)
    ensures Gross(ds, votes, epoch, ds.Keys, GrossOf(ds, votes, epoch))
  {
    hide StakeSum, Capped, Effective;
    var all := GrossOf(ds, votes, epoch);
    forall id ensures StakeAt(ds, votes, epoch, ds.Keys, all, id) {
      if id in all {
        var a :| a in ds && ActiveIn(ds[a], epoch) && Identity(votes, ds[a].voter) == id;
        assert a in Backing(ds, votes, epoch, ds.Keys, id);
      } else {
        forall a | a in Backing(ds, votes, epoch, ds.Keys, id) ensures id in Backed(ds, votes, epoch) { }
      }
    }
  }

  function AddStake(stakes: map<Address, nat>, id: Address, s: nat): (r: map<Address, nat>) {
    stakes[id := SaturatingAdd(if id in stakes then stakes[id] else 0, s)]
  }

  lemma {:induction false} GrossSkip(ds: Delegations, votes: map<Address, Address>, epoch: nat, accounts: set<Address>,
      stakes: map<Address, nat>, a: Address)
    requires AllWellFormed(ds) && Gross(ds, votes, epoch, accounts, stakes) && a in ds && !ActiveIn(ds[a], epoch)
    ensures Gross(ds, votes, epoch, accounts + {a}, stakes)
  {
    forall id ensures StakeAt(ds, votes, epoch, accounts + {a}, stakes, id) {
      assert StakeAt(ds, votes, epoch, accounts, stakes, id);
      assert Backing(ds, votes, epoch, accounts + {a}, id) == Backing(ds, votes, epoch, accounts, id);
    }
  }

  lemma {:induction false} GrossAdd(ds: Delegations, votes: map<Address, Address>, epoch: nat, accounts: set<Address>,
      stakes: map<Address, nat>, a: Address)
    requires AllWellFormed(ds) && Gross(ds, votes, epoch, accounts, stakes) && a in ds && ActiveIn(ds[a], epoch)
    requires a !in accounts
    ensures Gross(ds, votes, epoch, accounts + {a},
              AddStake(stakes, Identity(votes, ds[a].voter), Effective(ds[a], epoch)))
  {
    StakeSumEmpty(Weights(ds, epoch));
    assert Capped(StakeSum(Weights(ds, epoch), {})) == 0;
    hide StakeSum, Effective, Capped, SaturatingAdd;
    var who := Identity(votes, ds[a].voter);
    var after := AddStake(stakes, who, Effective(ds[a], epoch));
    forall id ensures StakeAt(ds, votes, epoch, accounts + {a}, after, id) {
      assert StakeAt(ds, votes, epoch, accounts, stakes, id);
      var backing := Backing(ds, votes, epoch, accounts, id);
      if id == who {
        assert Backing(ds, votes, epoch, accounts + {a}, id) == backing + {a};
        AddOne(Weights(ds, epoch), backing, a, if id in stakes then stakes[id] else 0);
      } else {
        assert Backing(ds, votes, epoch, accounts + {a}, id) == backing;
      }
    }
  }

  lemma {:induction false} AddOne(w: map<Address, nat>, vs: set<Address>, a: Address, sum: nat)
    requires vs <= w.Keys && a in w && a !in vs && sum == Capped(StakeSum(w, vs))
    ensures Capped(StakeSum(w, vs + {a})) == SaturatingAdd(sum, w[a])
  {
    StakeSumAdd(w, vs, a);
  }

  // ---------------------------------------------------------------------------------
  // The total

  /** Adding to one validator and to the total keeps the total the capped sum. */
  lemma {:induction false} TotalAdd(stakes: map<Address, nat>, id: Address, s: nat, total: nat)
    requires total == Capped(StakeSum(stakes, stakes.Keys)) && (id in stakes ==> stakes[id] <= U64_MAX) && s <= U64_MAX
    ensures SaturatingAdd(total, s) == Capped(StakeSum(AddStake(stakes, id, s), AddStake(stakes, id, s).Keys))
  {
    var after := AddStake(stakes, id, s);
    hide StakeSum;
    if id in stakes {
      SumReplace(stakes, id, after[id]);
    } else {
      assert after.Keys == stakes.Keys + {id};
      StakeSumSame(stakes, after, stakes.Keys);
      StakeSumAdd(after, stakes.Keys, id);
    }
  }

  lemma {:induction false} SumReplace(stakes: map<Address, nat>, id: Address, s: nat)
    requires id in stakes
    ensures StakeSum(stakes[id := s], stakes[id := s].Keys) + stakes[id] == StakeSum(stakes, stakes.Keys) + s
    ensures stakes[id] <= StakeSum(stakes, stakes.Keys)
  {
    hide StakeSum;
    var after := stakes[id := s];
    var rest := stakes.Keys - {id};
    assert stakes.Keys == rest + {id} && after.Keys == rest + {id};
    StakeSumSame(stakes, after, rest);
    StakeSumAdd(stakes, rest, id);
    StakeSumAdd(after, rest, id);
  }

  /** The total after some penalties: the capped gross less everything taken off. */
  ghost predicate Netted(gross: map<Address, nat>, stakes: map<Address, nat>, total: nat) {
    && stakes.Keys == gross.Keys
    && StakeSum(stakes, stakes.Keys) <= StakeSum(gross, gross.Keys)
    && total == SaturatingSub(Capped(StakeSum(gross, gross.Keys)),
        StakeSum(gross, gross.Keys) - StakeSum(stakes, stakes.Keys))
  }

  lemma {:induction false} NetStep(gross: map<Address, nat>, stakes: map<Address, nat>, total: nat, id: Address,
      cut: nat)
    requires Netted(gross, stakes, total) && id in stakes
    ensures var left := SaturatingSub(stakes[id], cut);
            Netted(gross, stakes[id := left], SaturatingSub(total, stakes[id] - left))
  {
    var left := SaturatingSub(stakes[id], cut);
    SumReplace(stakes, id, left);
    hide StakeSum;
    assert stakes[id := left].Keys == stakes.Keys;
  }

  function Penalty(slashed: map<Address, U64>, id: Address): (p: U64) {
    if id in slashed then slashed[id] else 0
  }

  /** Every validator has its gross stake less its penalty. */
  ghost predicate Penalised(gross: map<Address, nat>, slashed: map<Address, U64>, stakes: map<Address, nat>) {
    stakes.Keys == gross.Keys && forall id :: id in gross ==>
        stakes[id] == SaturatingSub(gross[id], Penalty(slashed, id))
  }

  /** The total is the sum of the validators' stakes exactly if the sum before penalties fits
      in 64 bits or every validator's penalty covers its gross stake. */
  lemma {:induction false} TotalIsSumIff(gross: map<Address, nat>, slashed: map<Address, U64>,
      stakes: map<Address, nat>, total: nat)
    requires Netted(gross, stakes, total) && Penalised(gross, slashed, stakes)
    ensures total == StakeSum(stakes, stakes.Keys) <==>
              StakeSum(gross, gross.Keys) <= U64_MAX || forall id :: id in gross ==> gross[id] <= Penalty(slashed, id)
  {
    hide StakeSum;
    StakeSumZero(stakes, stakes.Keys);
    assert (forall id :: id in stakes.Keys ==> stakes[id] == 0) <==> forall id :: id in gross ==>
        gross[id] <= Penalty(slashed, id);
  }

  /** The stakes of all validators together are at most the effective stakes of all active
      delegations, so a total that fits makes the sum exact. */
  lemma {:induction false} GrossWithin(ds: Delegations, votes: map<Address, Address>, epoch: nat,
      stakes: map<Address, nat>, ids: set<Address>)
    requires AllWellFormed(ds) && Gross(ds, votes, epoch, ds.Keys, stakes) && ids <= stakes.Keys
    ensures BackingAny(ds, votes, epoch, ids) <= Weights(ds, epoch).Keys
    ensures StakeSum(stakes, ids) <= StakeSum(Weights(ds, epoch), BackingAny(ds, votes, epoch, ids))
    decreases |ids|
  {
    hide StakeSum, Effective, Gross;
    var w := Weights(ds, epoch);
    if ids == {} {
      StakeSumEmpty(stakes);
      assert BackingAny(ds, votes, epoch, ids) == {};
    } else {
      var id :| id in ids;
      GrossWithin(ds, votes, epoch, stakes, ids - {id});
      assert (ids - {id}) + {id} == ids;
      StakeSumAdd(stakes, ids - {id}, id);
      GrossAt(ds, votes, epoch, stakes, id);
      var mine, others := Backing(ds, votes, epoch, ds.Keys, id), BackingAny(ds, votes, epoch, ids - {id});
      assert BackingAny(ds, votes, epoch, ids) == others + mine;
      StakeSumUnion(w, others, mine);
    }
  }

  ghost function BackingAny(ds: Delegations, votes: map<Address, Address>, epoch: nat,
      ids: set<Address>): (r: set<Address>)
  {
    set a | a in ds && ActiveIn(ds[a], epoch) && Identity(votes, ds[a].voter) in ids
  }

  lemma {:induction false} GrossAt(ds: Delegations, votes: map<Address, Address>, epoch: nat,
      stakes: map<Address, nat>, id: Address)
    requires AllWellFormed(ds) && Gross(ds, votes, epoch, ds.Keys, stakes) && id in stakes
    ensures var backing := Backing(ds, votes, epoch, ds.Keys, id);
            backing <= Weights(ds, epoch).Keys && stakes[id] <= StakeSum(Weights(ds, epoch), backing)
  {
    assert StakeAt(ds, votes, epoch, ds.Keys, stakes, id);
  }

  /** If the effective stakes of all active delegations together fit in 64 bits, so does what
      the validators have, and the total is its sum after penalties. */
  lemma {:induction false} FittingTotalIsSum(ds: Delegations, votes: map<Address, Address>, epoch: nat,
      slashed: map<Address, U64>, stakes: map<Address, nat>, total: nat)
    requires AllWellFormed(ds) && Netted(GrossOf(ds, votes, epoch), stakes, total)
    requires Penalised(GrossOf(ds, votes, epoch), slashed, stakes)
    requires StakeSum(Weights(ds, epoch), Weights(ds, epoch).Keys) <= U64_MAX
    ensures total == StakeSum(stakes, stakes.Keys)
  {
    var w, gross := Weights(ds, epoch), GrossOf(ds, votes, epoch);
    GrossHolds(ds, votes, epoch);
    GrossWithin(ds, votes, epoch, gross, gross.Keys);
    var any := BackingAny(ds, votes, epoch, gross.Keys);
    hide StakeSum, Gross, Weights, GrossOf;
    StakeSumUnion(w, any, w.Keys - any);
    assert any + (w.Keys - any) == w.Keys;
    TotalIsSumIff(gross, slashed, stakes, total);
  }

  /** Two stake accounts that put 64 bits of stake behind one validator each. */
  const WHALE_A := Delegation(1, 0xFFFF_FFFF_FFFF_FFFF, 0, 9, 0)
  const WHALE_B := Delegation(2, 0xFFFF_FFFF_FFFF_FFFF, 0, 9, 0)

  lemma {:induction false} WhalesBacking(ds: Delegations)
    requires ds == map[11 := WHALE_A, 12 := WHALE_B]
    ensures AllWellFormed(ds) && GrossOf(ds, map[], 5) == map[1 := U64_MAX, 2 := U64_MAX]
  {
    var w := Weights(ds, 5);
    assert w == map[11 := U64_MAX, 12 := U64_MAX];
    assert Backing(ds, map[], 5, ds.Keys, 1) == {11} && Backing(ds, map[], 5, ds.Keys, 2) == {12};
    StakeSumOne(w, 11);
    StakeSumOne(w, 12);
    assert 1 in Backed(ds, map[], 5) by { assert 11 in ds && Identity(map[], ds[11].voter) == 1; }
    assert 2 in Backed(ds, map[], 5) by { assert 12 in ds && Identity(map[], ds[12].voter) == 2; }
    assert Backed(ds, map[], 5) == {1, 2};
  }

  lemma {:induction false} WhalesTotal(gross: map<Address, nat>)
    requires gross == map[1 := U64_MAX, 2 := U64_MAX]
    ensures StakeSum(gross, gross.Keys) == 2 * U64_MAX
  {
    assert gross.Keys == {1} + {2};
    StakeSumOne(gross, 1);
    StakeSumAdd(gross, {1}, 2);
  }

  /** A bank in which both are registered counts only half of its active stake. */
  method OverflowingTotalFallsShort() returns (bank: Bank)
    ensures bank.delegations == map[11 := WHALE_A, 12 := WHALE_B] && bank.voteAccounts == map[] && bank.slashed == map[]
    ensures bank.totalActiveStake == U64_MAX && StakeSum(bank.epochStakes, bank.epochStakes.Keys) == 2 * U64_MAX
  {
    hide StakeSum, GrossOf;
    bank := new Bank();
    var a := bank.SetStakeDelegation(11, WHALE_A);
    var b := bank.SetStakeDelegation(12, WHALE_B);
    WhalesBacking(bank.delegations);
    bank.RecalculateEpochStakes(5);
    ghost var gross: map<Address, nat> := map[1 := U64_MAX, 2 := U64_MAX];
    assert bank.epochStakes == gross;
    WhalesTotal(gross);
  }

  class Bank {
    var delegations: Delegations
    var voteAccounts: map<Address, Address>
    var slashed: map<Address, U64>
    var epochStakes: map<Address, nat>
    var totalActiveStake: nat

    ghost predicate Valid()
      reads this
    {
      AllWellFormed(delegations)
    }

    constructor ()
      ensures Valid() && delegations == map[] && voteAccounts == map[] && slashed == map[] && epochStakes == map[]
      ensures totalActiveStake == 0
    {
      delegations, voteAccounts, slashed, epochStakes, totalActiveStake := map[], map[], map[], map[], 0;
    }

    /** Registers a delegation whose epochs and rate make sense. */
    method SetStakeDelegation(account: Address, d: Delegation) returns (r: Result<(), DelegationError>)
      requires Valid()
      modifies `delegations
      ensures Valid()
      ensures r.Ok? <==> WellFormed(d)
      ensures r == Err(ActivationAfterDeactivation) <==> d.activationEpoch > d.deactivationEpoch
      ensures delegations == if r.Ok? then old(delegations)[account := d] else old(delegations)
    {
      if d.activationEpoch > d.deactivationEpoch {
        return Err(ActivationAfterDeactivation);
      }
      if d.rate > FULL_RATE {
        return Err(RateAboveFull);
      }
      delegations := delegations[account := d];
      r := Ok(());
    }

    /** Recomputes what every validator has.  The order in which delegations and validators
        are visited plays no role. */
    method RecalculateEpochStakes(epoch: nat)
      requires Valid()
      modifies `epochStakes, `totalActiveStake
      ensures forall id :: id in epochStakes ==>
                var gross := BackedBy(delegations, voteAccounts, epoch, id);
                && (id !in slashed ==> epochStakes[id] == gross)
                && (id in slashed ==> epochStakes[id] == if slashed[id] <= gross then gross - slashed[id] else 0)
      ensures forall id :: id in epochStakes <==>
                exists a :: a in delegations && a in Backing(delegations, voteAccounts, epoch, delegations.Keys, id)
      ensures var gross := GrossOf(delegations, voteAccounts, epoch);
              && Penalised(gross, slashed, epochStakes) && Netted(gross, epochStakes, totalActiveStake)
              && (totalActiveStake == StakeSum(epochStakes, epochStakes.Keys) <==>
                    || StakeSum(gross, gross.Keys) <= U64_MAX
                    || forall id :: id in gross ==> gross[id] <= Penalty(slashed, id))
    {
      hide Gross, GrossOf, Netted, StakeSum, Effective, Penalised;
      var stakes, total := Accumulate(epoch);
      ghost var gross := stakes;
      GrossIs(delegations, voteAccounts, epoch, stakes);
      stakes, total := ApplyPenalties(stakes, total);
      TotalIsSumIff(gross, slashed, stakes, total);
      NetFields(delegations, voteAccounts, epoch, slashed, stakes);
      hide BackedBy, Backing;
      epochStakes := stakes;
      totalActiveStake := total;
    }

    method Accumulate(epoch: nat) returns (stakes: map<Address, nat>, total: nat)
      requires Valid()
      ensures Gross(delegations, voteAccounts, epoch, delegations.Keys, stakes)
      ensures total == Capped(StakeSum(stakes, stakes.Keys))
    {
      hide Gross, StakeSum, Effective, Capped;
      stakes, total := map[], 0;
      NothingYet(delegations, voteAccounts, epoch);
      var todo := delegations.Keys;
      ghost var seen: set<Address> := {};
      while todo != {}
        invariant seen !! todo && seen + todo == delegations.Keys
        invariant Gross(delegations, voteAccounts, epoch, seen, stakes)
        invariant total == Capped(StakeSum(stakes, stakes.Keys)) && forall id :: id in stakes ==> stakes[id] <= U64_MAX
        decreases todo
      {
        var a :| a in todo;
        todo := todo - {a};
        var d := delegations[a];
        if d.activationEpoch > epoch || d.deactivationEpoch < epoch {
          GrossSkip(delegations, voteAccounts, epoch, seen, stakes, a);
        } else {
          var effective := Effective(d, epoch);
          EffectiveWithin(d, epoch);
          var id := Identity(voteAccounts, d.voter);
          GrossAdd(delegations, voteAccounts, epoch, seen, stakes, a);
          TotalAdd(stakes, id, effective, total);
          stakes := AddStake(stakes, id, effective);
          total := SaturatingAdd(total, effective);
        }
        seen := seen + {a};
      }
    }

    method ApplyPenalties(gross: map<Address, nat>, before: nat) returns (stakes: map<Address, nat>, total: nat)
      requires before == Capped(StakeSum(gross, gross.Keys))
      ensures Penalised(gross, slashed, stakes) && Netted(gross, stakes, total)
    {
      hide StakeSum, Capped, Netted;
      stakes, total := gross, before;
      NetStart(gross, before);
      var todo := gross.Keys;
      while todo != {}
        invariant todo <= gross.Keys == stakes.Keys && Netted(gross, stakes, total)
        invariant forall id :: id in gross ==>
                    stakes[id] == if id in todo then gross[id] else SaturatingSub(gross[id], Penalty(slashed, id))
        decreases todo
      {
        var id :| id in todo;
        todo := todo - {id};
        var cut := Penalty(slashed, id);
        if cut > 0 {
          NetStep(gross, stakes, total, id, cut);
          var had := stakes[id];
          stakes := stakes[id := SaturatingSub(had, cut)];
          total := SaturatingSub(total, had - stakes[id]);
        }
      }
    }
  }

  /** Who has stake, and what of it penalties leave. */
  lemma {:induction false} NetFields(ds: Delegations, votes: map<Address, Address>, epoch: nat,
      slashed: map<Address, U64>, stakes: map<Address, nat>)
    requires AllWellFormed(ds) && Penalised(GrossOf(ds, votes, epoch), slashed, stakes)
    ensures forall id :: id in stakes ==>
              var gross := BackedBy(ds, votes, epoch, id);
              && (id !in slashed ==> stakes[id] == gross)
              && (id in slashed ==> stakes[id] == if slashed[id] <= gross then gross - slashed[id] else 0)
    ensures forall id :: id in stakes <==> exists a :: a in ds && a in Backing(ds, votes, epoch, ds.Keys, id)
  {
    hide StakeSum, Capped, Effective, BackedBy;
    var all := GrossOf(ds, votes, epoch);
    forall id ensures id in stakes <==> exists a :: a in ds && a in Backing(ds, votes, epoch, ds.Keys, id) {
      assert id in stakes <==> id in Backed(ds, votes, epoch);
      if id in stakes {
        var a :| a in ds && ActiveIn(ds[a], epoch) && Identity(votes, ds[a].voter) == id;
        assert a in Backing(ds, votes, epoch, ds.Keys, id);
      }
    }
  }

  lemma {:induction false} NothingYet(ds: Delegations, votes: map<Address, Address>, epoch: nat)
    requires AllWellFormed(ds)
    ensures var none: map<Address, nat> := map[];
            Gross(ds, votes, epoch, {}, none) && Capped(StakeSum(none, none.Keys)) == 0
  {
    var none: map<Address, nat> := map[];
    forall id ensures StakeAt(ds, votes, epoch, {}, none, id) {
      assert Backing(ds, votes, epoch, {}, id) == {};
    }
    StakeSumEmpty(none);
  }

  lemma {:induction false} NetStart(gross: map<Address, nat>, total: nat)
    requires total == Capped(StakeSum(gross, gross.Keys))
    ensures Netted(gross, gross, total)
  {
  }
}
