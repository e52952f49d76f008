/** Sums of stakes over finite sets, and the cap at 64 bits. */
module Sums {
  import opened Crypto
  import opened Ordered

  ghost function StakeSum(w: map<Address, nat>, vs: set<Address>): nat
    requires vs <= w.Keys
  {
    if vs == {} then 0 else
      var v := Min(vs);
      w[v] + StakeSum(w, vs - {v})
  }

  lemma {:induction false} StakeSumAdd(w: map<Address, nat>, vs: set<Address>, v: Address)
    requires vs <= w.Keys && v in w && v !in vs
    ensures StakeSum(w, vs + {v}) == StakeSum(w, vs) + w[v]
    decreases |vs|
  {
    hide Min;
    var more := vs + {v};
    var m := Min(more);
    if m == v {
      assert more - {v} == vs;
    } else {
      assert Min(vs) == m;
      assert more - {m} == (vs - {m}) + {v};
      StakeSumAdd(w, vs - {m}, v);
    }
  }

  lemma {:induction false} StakeSumSame(w: map<Address, nat>, u: map<Address, nat>, vs: set<Address>)
    requires vs <= w.Keys && vs <= u.Keys && forall v :: v in vs ==> w[v] == u[v]
    ensures StakeSum(w, vs) == StakeSum(u, vs)
    decreases |vs|
  {
    hide Min;
    if vs == {} {
    } else {
      StakeSumSame(w, u, vs - {Min(vs)});
    }
  }

  lemma {:induction false} StakeSumUnion(w: map<Address, nat>, a: set<Address>, b: set<Address>)
    requires a <= w.Keys && b <= w.Keys && a !! b
    ensures StakeSum(w, a + b) == StakeSum(w, a) + StakeSum(w, b)
    decreases |b|
  {
    hide StakeSum, Min;
    if b == {} {
      assert a + b == a;
      assert StakeSum(w, {}) == 0 by { StakeSumEmpty(w); }
    } else {
      var v := Min(b);
      assert (a + (b - {v})) + {v} == a + b && (b - {v}) + {v} == b;
      StakeSumUnion(w, a, b - {v});
      StakeSumAdd(w, a + (b - {v}), v);
      StakeSumAdd(w, b - {v}, v);
    }
  }

  lemma {:induction false} StakeSumEmpty(w: map<Address, nat>)
    ensures StakeSum(w, {}) == 0
  {
  }

  lemma {:induction false} StakeSumOne(w: map<Address, nat>, v: Address)
    requires v in w
    ensures StakeSum(w, {v}) == w[v]
  {
    StakeSumEmpty(w);
    assert {} + {v} == {v};
    StakeSumAdd(w, {}, v);
  }

  lemma {:induction false} StakeSumZero(w: map<Address, nat>, vs: set<Address>)
    requires vs <= w.Keys
    ensures StakeSum(w, vs) == 0 <==> forall v :: v in vs ==> w[v] == 0
    decreases |vs|
  {
    hide Min;
    if vs == {} {
    } else {
      var v := Min(vs);
      StakeSumZero(w, vs - {v});
      assert forall x :: x in vs ==> x == v || x in vs - {v};
    }
  }

  function Capped(n: nat): (r: nat) {
    if n <= U64_MAX then n else U64_MAX
  }
}
