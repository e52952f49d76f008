/** The leader schedule of an epoch (consensus/src/leader_schedule.rs): draws without modulo
    bias, selection in proportion to stake, four consecutive slots per draw. */
module LeaderSchedules {
  import opened Arithmetic
  import opened Crypto

  const NUM_CONSECUTIVE_LEADER_SLOTS: nat := 4

  datatype Stake = Stake(identity: Address, amount: U64)

  datatype ScheduleError = NoValidatorsWithStake(epoch: nat) | StakeOverflow(epoch: nat)

  // ---------------------------------------------------------------------------------
  // Draws

  /** The first eight bytes of a digest as a number: any function of the digest. */
  type Draw = Digest -> U64

  function Redraw(draw: Draw, s: Digest): (r: Digest) {
    Hashed([Sub(s)] + LittleEndian(draw(s), 8))
  }

  function Mix(s: Digest, n: nat): (r: Digest) {
    Hashed([Sub(s)] + LittleEndian(n, 8))
  }

  /** A draw below `limit` is reached in at most `n` redraws. */
  ghost predicate SettlesIn(draw: Draw, s: Digest, limit: nat, n: nat)
    decreases n
  {
    draw(s) < limit || (n > 0 && SettlesIn(draw, Redraw(draw, s), limit, n - 1))
  }

  ghost predicate Settles(draw: Draw, s: Digest, limit: nat) {
    exists n: nat :: SettlesIn(draw, s, limit, n)
  }

  /** Redrawing from any digest reaches a value below the limit. */
  ghost predicate AlwaysSettles(draw: Draw, limit: nat) {
    forall s :: Settles(draw, s, limit)
  }

  /** The first state in the redraw chain whose value is accepted. */
  ghost function Settled(draw: Draw, s: Digest, limit: nat, n: nat): (r: Digest)
    requires SettlesIn(draw, s, limit, n)
    ensures draw(r) < limit
    decreases n
  {
    if draw(s) < limit then s else Settled(draw, Redraw(draw, s), limit, n - 1)
  }

  /** How many redraws were allowed for does not matter. */
  lemma {:induction false} SettledSame(draw: Draw, s: Digest, limit: nat, m: nat, n: nat)
    requires SettlesIn(draw, s, limit, m) && SettlesIn(draw, s, limit, n)
    ensures Settled(draw, s, limit, m) == Settled(draw, s, limit, n)
    decreases m
  {
    if draw(s) >= limit {
      SettledSame(draw, Redraw(draw, s), limit, m - 1, n - 1);
    }
  }

  ghost function SettledState(draw: Draw, s: Digest, limit: nat): (r: Digest)
    requires Settles(draw, s, limit)
    ensures draw(r) < limit
  {
    var n: nat :| SettlesIn(draw, s, limit, n);
    Settled(draw, s, limit, n)
  }

  lemma {:induction false} SettledStateIs(draw: Draw, s: Digest, limit: nat, n: nat)
    requires SettlesIn(draw, s, limit, n)
    ensures Settles(draw, s, limit) && SettledState(draw, s, limit) == Settled(draw, s, limit, n)
  {
    var m: nat :| SettlesIn(draw, s, limit, m) && SettledState(draw, s, limit) == Settled(draw, s, limit, m);
    SettledSame(draw, s, limit, m, n);
  }

  // ---------------------------------------------------------------------------------
  // Selection by stake

  function Cumulative(stakes: seq<Stake>, n: nat): (c: nat)
    requires n <= |stakes|
  {
    if n == 0 then 0 else Cumulative(stakes, n - 1) + stakes[n - 1].amount
  }

  lemma {:induction false} CumulativeMonotone(stakes: seq<Stake>, i: nat, n: nat)
    requires i <= n <= |stakes|
    ensures Cumulative(stakes, i) <= Cumulative(stakes, n)
    decreases n
  {
    if i == n {
    } else {
      CumulativeMonotone(stakes, i, n - 1);
    }
  }

  /** `target` falls into the stretch of validator `i`. */
  ghost predicate InStretch(stakes: seq<Stake>, target: nat, i: nat) {
    i < |stakes| && Cumulative(stakes, i) <= target < Cumulative(stakes, i + 1)
  }

  lemma {:induction false} StretchUnique(stakes: seq<Stake>, target: nat, i: nat, j: nat)
    requires InStretch(stakes, target, i) && InStretch(stakes, target, j)
    ensures i == j
  {
    if i < j { CumulativeMonotone(stakes, i + 1, j); }
    if j < i { CumulativeMonotone(stakes, j + 1, i); }
  }

  /** How many of the draws below `bound` select validator `i`. */
  ghost function CountDraws(stakes: seq<Stake>, total: nat, bound: nat, i: nat): (c: nat)
    requires total > 0
    decreases bound
  {
    if bound == 0 then 0 else
      CountDraws(stakes, total, bound - 1, i) + if InStretch(stakes, (bound - 1) % total, i) then 1 else 0
  }

  lemma {:induction false} QuotientAtMost(total: nat, p: nat, u: nat, q: nat, t: nat)
    requires p * total + u == q * total + t && t < total
    ensures p <= q
  {
    assert (q + 1) * total == q * total + total;
    if p > q { MulMonotone(q + 1, p, total); }
  }

  lemma {:induction false} ModUnique(d: nat, total: nat, q: nat, t: nat)
    requires total > 0 && d == q * total + t && t < total
    ensures d % total == t
  {
    var p, u := d / total, d % total;
    assert d == p * total + u;
    QuotientAtMost(total, p, u, q, t);
    QuotientAtMost(total, q, t, p, u);
  }

  /** The part of the stretch from `lo` to `hi` that lies below `t`. */
  function Overlap(t: nat, lo: nat, hi: nat): (r: nat)
    requires lo <= hi
  {
    if t <= lo then 0 else if t <= hi then t - lo else hi - lo
  }

  /** Counting on from the start of a round. */
  lemma {:induction false} CountInRound(stakes: seq<Stake>, total: nat, base: nat, i: nat, t: nat)
    requires total > 0 && i < |stakes| && t <= total
    requires forall u: nat :: u < total ==> Wraps(base, total, u)
    ensures CountDraws(stakes, total, base + t, i)
         == CountDraws(stakes, total, base, i) + Overlap(t, Cumulative(stakes, i), Cumulative(stakes, i + 1))
    decreases t
  {
    if t == 0 {
    } else {
      CountInRound(stakes, total, base, i, t - 1);
      assert Wraps(base, total, t - 1);
    }
  }

  /** `base` is a multiple of `total`, seen from offset `u`. */
  ghost predicate Wraps(base: nat, total: nat, u: nat)
    requires total > 0
  {
    (base + u) % total == u
  }

  /** Selection is exactly proportional: over whole rounds of the total stake each validator
      is selected by as many draws per round as it has stake. */
  lemma {:induction false} ExactlyProportional(stakes: seq<Stake>, total: nat, rounds: nat, i: nat)
    requires total == Cumulative(stakes, |stakes|) > 0 && i < |stakes|
    ensures CountDraws(stakes, total, rounds * total, i) == rounds * stakes[i].amount
    decreases rounds
  {
    hide CountDraws, Cumulative;
    if rounds == 0 {
      NoDraws(stakes, total, i);
    } else {
      ExactlyProportional(stakes, total, rounds - 1, i);
      var base := (rounds - 1) * total;
      RoundAdds(stakes, total, rounds - 1, base, i);
      NextMultiple(rounds - 1, total);
      NextMultiple(rounds - 1, stakes[i].amount);
    }
  }

  lemma {:induction false} NoDraws(stakes: seq<Stake>, total: nat, i: nat)
    requires total > 0
    ensures CountDraws(stakes, total, 0 * total, i) == 0
  {
  }

  lemma {:induction false} NextMultiple(n: nat, m: nat)
    ensures (n + 1) * m == n * m + m
  {
  }

  lemma {:induction false} RoundAdds(stakes: seq<Stake>, total: nat, rounds: nat, base: nat, i: nat)
    requires total == Cumulative(stakes, |stakes|) > 0 && i < |stakes| && base == rounds * total
    ensures CountDraws(stakes, total, base + total, i) == CountDraws(stakes, total, base, i) + stakes[i].amount
  {
    forall u: nat | u < total ensures Wraps(base, total, u) {
      ModUnique(base + u, total, rounds, u);
    }
    CountInRound(stakes, total, base, i, total);
    CumulativeMonotone(stakes, i + 1, |stakes|);
  }

  /** The number of rounds below which a draw is accepted. */
  function Rounds(total: nat): (r: nat)
    requires total > 0
  {
    U64_MAX / total
  }

  /** Redraws until the value is below the limit. */
  method Settle(draw: Draw, state: Digest, limit: nat) returns (next: Digest)
    requires Settles(draw, state, limit)
    ensures next == SettledState(draw, state, limit)
  {
    ghost var left: nat :| SettlesIn(draw, state, limit, left);
    SettledStateIs(draw, state, limit, left);
    ghost var final := Settled(draw, state, limit, left);
    next := state;
    while draw(next) >= limit
      invariant SettlesIn(draw, next, limit, left) && Settled(draw, next, limit, left) == final
      decreases left
    {
      next := Redraw(draw, next);
      left := left - 1;
    }
  }

  method PickValidator(draw: Draw, state: Digest, stakes: seq<Stake>, total: U64)
    returns (next: Digest, selected: Address, ghost i: nat)
    requires total == Cumulative(stakes, |stakes|) > 0 && Settles(draw, state, LimitOf(stakes))
    ensures next == SettledState(draw, state, LimitOf(stakes))
    ensures InStretch(stakes, draw(next) % total, i) && selected == stakes[i].identity
  {
    hide Settles, SettledState;
    next := Settle(draw, state, Rounds(total) * total);
    selected, i := SelectAt(stakes, total, draw(next) % total);
  }

  method SelectAt(stakes: seq<Stake>, total: nat, target: nat) returns (selected: Address, ghost i: nat)
    requires total == Cumulative(stakes, |stakes|) && target < total
    ensures InStretch(stakes, target, i) && selected == stakes[i].identity
  {
    var cumulative := 0;
    var k := 0;
    while cumulative + stakes[k].amount <= target
      invariant k < |stakes| && cumulative == Cumulative(stakes, k) <= target
      decreases |stakes| - k
    {
      cumulative := cumulative + stakes[k].amount;
      k := k + 1;
    }
    selected, i := stakes[k].identity, k;
  }

  /** The accepted draws are whole rounds: of all values below the limit exactly the stake
      times the number of rounds lead to a validator. */
  lemma {:induction false} AcceptedProportional(stakes: seq<Stake>, i: nat)
    requires Cumulative(stakes, |stakes|) > 0 && i < |stakes|
    ensures CountDraws(stakes, Cumulative(stakes, |stakes|), LimitOf(stakes), i)
         == U64_MAX / Cumulative(stakes, |stakes|) * stakes[i].amount
  {
    hide CountDraws, Cumulative;
    ExactlyProportional(stakes, Cumulative(stakes, |stakes|), Rounds(Cumulative(stakes, |stakes|)), i);
  }

  /** The limit is the highest multiple of the total stake within 64 bits. */
  lemma {:induction false} LimitIsHighest(stakes: seq<Stake>)
    requires Cumulative(stakes, |stakes|) > 0
    ensures var total := Cumulative(stakes, |stakes|);
            LimitOf(stakes) == U64_MAX / total * total && U64_MAX - total < LimitOf(stakes) <= U64_MAX
  {
    var total := Cumulative(stakes, |stakes|);
    hide Cumulative;
    assert U64_MAX == U64_MAX / total * total + U64_MAX % total;
  }

  /** With distinct identities the validator a draw selects is the one it is counted for. */
  lemma {:induction false} SelectedIsCounted(stakes: seq<Stake>, target: nat, i: nat, j: nat)
    requires DistinctIdentities(stakes) && InStretch(stakes, target, i) && j < |stakes|
    ensures stakes[i].identity == stakes[j].identity <==> InStretch(stakes, target, j)
  {
    hide Cumulative;
    if InStretch(stakes, target, j) { StretchUnique(stakes, target, i, j); }
  }

  // ---------------------------------------------------------------------------------
  // The schedule

  /** The generator state behind draw number `n`. */
  ghost function StateAt(draw: Draw, seed: Digest, limit: nat, n: nat): (r: Digest)
    requires AlwaysSettles(draw, limit)
    decreases n
  {
    var before := if n == 0 then seed else StateAt(draw, seed, limit, n - 1);
    assert Settles(draw, Mix(before, n), limit);
    SettledState(draw, Mix(before, n), limit)
  }

  /** Each digest of a chain is the one before with its own, refused value mixed in. */
  ghost predicate Redraws(draw: Draw, limit: nat, ds: seq<Digest>) {
    forall k :: 0 <= k < |ds| - 1 ==> draw(ds[k]) >= limit && ds[k + 1] == Mix(ds[k], draw(ds[k]))
  }

  lemma {:induction false} SettledSteps(draw: Draw, s: Digest, limit: nat, n: nat) returns (ds: seq<Digest>)
    requires SettlesIn(draw, s, limit, n)
    ensures |ds| > 0 && ds[0] == s && ds[|ds| - 1] == Settled(draw, s, limit, n) && Redraws(draw, limit, ds)
    decreases n
  {
    if draw(s) < limit {
      ds := [s];
    } else {
      var rest := SettledSteps(draw, Redraw(draw, s), limit, n - 1);
      ds := [s] + rest;
      forall k | 0 <= k < |ds| - 1 ensures draw(ds[k]) >= limit && ds[k + 1] == Mix(ds[k], draw(ds[k])) {
        if k > 0 { assert rest[k] == Mix(rest[k - 1], draw(rest[k - 1])) && draw(rest[k - 1]) >= limit; }
      }
    }
  }

  /** The state of a draw: its number mixed into the state before, and then redraws up to the
      first value below the limit. */
  lemma {:induction false} StateSteps(draw: Draw, seed: Digest, limit: nat, n: nat) returns (ds: seq<Digest>)
    requires AlwaysSettles(draw, limit)
    ensures |ds| > 0 && ds[0] == Mix(if n == 0 then seed else StateAt(draw, seed, limit, n - 1), n)
    ensures Redraws(draw, limit, ds) && StateAt(draw, seed, limit, n) == ds[|ds| - 1] && draw(ds[|ds| - 1]) < limit
  {
    var start := Mix(if n == 0 then seed else StateAt(draw, seed, limit, n - 1), n);
    assert Settles(draw, start, limit);
    var k: nat :| SettlesIn(draw, start, limit, k);
    SettledStateIs(draw, start, limit, k);
    ds := SettledSteps(draw, start, limit, k);
  }

  /** The leader of draw number `n`: the validator whose stretch the draw falls into. */
  ghost predicate LeadsGroup(draw: Draw, seed: Digest, stakes: seq<Stake>, n: nat, leader: Address)
    requires Cumulative(stakes, |stakes|) > 0 && AlwaysSettles(draw, LimitOf(stakes))
  {
    var target := draw(StateAt(draw, seed, LimitOf(stakes), n)) % Cumulative(stakes, |stakes|);
    exists i: nat :: InStretch(stakes, target, i) && stakes[i].identity == leader
  }

  ghost function LimitOf(stakes: seq<Stake>): (r: nat)
    requires Cumulative(stakes, |stakes|) > 0
  {
    Rounds(Cumulative(stakes, |stakes|)) * Cumulative(stakes, |stakes|)
  }

  /** One leader per slot, the same for each group of four. */
  ghost predicate Schedules(draw: Draw, seed: Digest, stakes: seq<Stake>, leaders: seq<Address>)
    requires Cumulative(stakes, |stakes|) > 0 && AlwaysSettles(draw, LimitOf(stakes))
  {
    forall k :: 0 <= k < |leaders| ==> LeadsGroup(draw, seed, stakes, k / NUM_CONSECUTIVE_LEADER_SLOTS, leaders[k])
  }

  lemma {:induction false} LeaderUnique(draw: Draw, seed: Digest, stakes: seq<Stake>, n: nat, a: Address, b: Address)
    requires Cumulative(stakes, |stakes|) > 0 && AlwaysSettles(draw, LimitOf(stakes))
    requires LeadsGroup(draw, seed, stakes, n, a) && LeadsGroup(draw, seed, stakes, n, b)
    ensures a == b
  {
    var target := draw(StateAt(draw, seed, LimitOf(stakes), n)) % Cumulative(stakes, |stakes|);
    var i: nat :| InStretch(stakes, target, i) && stakes[i].identity == a;
    var j: nat :| InStretch(stakes, target, j) && stakes[j].identity == b;
    StretchUnique(stakes, target, i, j);
  }

  /** The active stakes, the draw function and the seed determine the schedule. */
  lemma {:induction false} ScheduleDetermined(draw: Draw, seed: Digest, stakes: seq<Stake>, a: seq<Address>,
      b: seq<Address>)
    requires Cumulative(stakes, |stakes|) > 0 && AlwaysSettles(draw, LimitOf(stakes))
    requires Schedules(draw, seed, stakes, a) && Schedules(draw, seed, stakes, b) && |a| == |b|
    ensures a == b
  {
    forall k | 0 <= k < |a| ensures a[k] == b[k] {
      LeaderUnique(draw, seed, stakes, k / NUM_CONSECUTIVE_LEADER_SLOTS, a[k], b[k]);
    }
  }

  // ---------------------------------------------------------------------------------
  // The active stakes

  ghost predicate SortedByIdentity(s: seq<Stake>) {
    forall i, j :: 0 <= i < j < |s| ==> s[i].identity <= s[j].identity
  }

  ghost predicate DistinctIdentities(s: seq<Stake>) {
    forall i, j :: 0 <= i < |s| && 0 <= j < |s| && s[i].identity == s[j].identity ==> i == j
  }

  /** `active` holds the members of `stakes` with stake, ordered by identity. */
  ghost predicate ActiveOf(stakes: seq<Stake>, active: seq<Stake>) {
    && SortedByIdentity(active)
    && (forall x :: x in active <==> x in stakes && x.amount > 0)
    && Cumulative(active, |active|) == Cumulative(stakes, |stakes|)
    && (DistinctIdentities(stakes) ==> DistinctIdentities(active))
  }

  /** With distinct identities the order in which the stakes come does not matter. */
  lemma {:induction false} ActiveUnique(a: seq<Stake>, b: seq<Stake>, x: seq<Stake>, y: seq<Stake>)
    requires ActiveOf(a, x) && ActiveOf(b, y) && DistinctIdentities(a) && DistinctIdentities(b)
    requires forall s :: s in a <==> s in b
    ensures x == y
  {
    StrictUnique(x, y);
  }

  lemma {:induction false} StrictUnique(x: seq<Stake>, y: seq<Stake>)
    requires SortedByIdentity(x) && DistinctIdentities(x) && SortedByIdentity(y) && DistinctIdentities(y)
    requires forall s :: s in x <==> s in y
    ensures x == y
    decreases |x|
  {
    if |x| > 0 { assert x[0] in y; }
    if |y| > 0 { assert y[0] in x; }
    if |x| == 0 {
    } else {
      assert x[0] in y && y[0] in x;
      assert x[0].identity == y[0].identity;
      SameHead(x, y);
      assert x == [x[0]] + x[1..] && y == [y[0]] + y[1..];
      TailsAgree(x, y);
      StrictUnique(x[1..], y[1..]);
    }
  }

  lemma {:induction false} SameHead(x: seq<Stake>, y: seq<Stake>)
    requires |x| > 0 && |y| > 0 && x[0] in y && DistinctIdentities(y) && x[0].identity == y[0].identity
    ensures x[0] == y[0]
  {
    var i :| 0 <= i < |y| && y[i] == x[0];
  }

  lemma {:induction false} TailsAgree(x: seq<Stake>, y: seq<Stake>)
    requires |x| > 0 && |y| > 0 && DistinctIdentities(x) && DistinctIdentities(y) && x[0] == y[0]
    requires forall s :: s in x <==> s in y
    ensures forall s :: s in x[1..] <==> s in y[1..]
    ensures DistinctIdentities(x[1..]) && DistinctIdentities(y[1..])
  {
    TailMembers(x);
    TailMembers(y);
  }

  lemma {:induction false} TailMembers(x: seq<Stake>)
    requires |x| > 0 && DistinctIdentities(x)
    ensures forall s :: s in x[1..] <==> s in x && s != x[0]
    ensures DistinctIdentities(x[1..])
  {
    var t := x[1..];
    forall s ensures s in t <==> s in x && s != x[0] {
      if s in t {
        var i :| 0 <= i < |t| && t[i] == s;
        assert x[i + 1] == s;
      }
      if s in x && s != x[0] {
        var i :| 0 <= i < |x| && x[i] == s;
        assert t[i - 1] == s;
      }
    }
  }

  /** Inserts behind every entry with the same or a smaller identity, as a stable sort does. */
  method InsertSorted(s: seq<Stake>, x: Stake) returns (r: seq<Stake>)
    requires SortedByIdentity(s)
    ensures SortedByIdentity(r)
    ensures forall y :: y in r <==> y == x || y in s
    ensures Cumulative(r, |r|) == Cumulative(s, |s|) + x.amount
    ensures DistinctIdentities(s) && (forall y :: y in s ==> y.identity != x.identity) ==> DistinctIdentities(r)
  {
    var k: nat := |s|;
    while k > 0 && s[k - 1].identity > x.identity
      invariant k <= |s| && forall i :: k <= i < |s| ==> s[i].identity > x.identity
    {
      k := k - 1;
    }
    r := s[..k] + [x] + s[k..];
    InsertedMembers(s, x, k);
    InsertedSorted(s, x, k, r);
    InsertedDistinct(s, x, k, r);
    CumulativeInsert(s, x, k, |s|);
  }

  /** `r` is `s` with `x` put in at position `k`. */
  ghost predicate Inserted(s: seq<Stake>, x: Stake, k: nat, r: seq<Stake>) {
    && k <= |s| && |r| == |s| + 1 && r[k] == x
    && (forall i :: 0 <= i < k ==> r[i] == s[i])
    && (forall i :: k < i < |r| ==> r[i] == s[i - 1])
  }

  lemma {:induction false} InsertedMembers(s: seq<Stake>, x: Stake, k: nat)
    requires k <= |s|
    ensures Inserted(s, x, k, s[..k] + [x] + s[k..])
    ensures forall y :: y in s[..k] + [x] + s[k..] <==> y == x || y in s
  {
    assert s == s[..k] + s[k..];
  }

  lemma {:induction false} InsertedOld(s: seq<Stake>, x: Stake, k: nat, r: seq<Stake>, i: nat)
    requires Inserted(s, x, k, r) && i < |r| && i != k
    ensures var a := if i > k then i - 1 else i;
            a < |s| && r[i] == s[a] && r[i] in s
  {
  }

  lemma {:induction false} InsertedSorted(s: seq<Stake>, x: Stake, k: nat, r: seq<Stake>)
    requires Inserted(s, x, k, r) && SortedByIdentity(s) && (k > 0 ==> s[k - 1].identity <= x.identity)
    requires forall i :: k <= i < |s| ==> s[i].identity > x.identity
    ensures SortedByIdentity(r)
  {
    forall i, j | 0 <= i < j < |r| ensures r[i].identity <= r[j].identity {
      if i < k && i < k - 1 {
        assert s[i].identity <= s[k - 1].identity;
      }
      if i != k { InsertedOld(s, x, k, r, i); }
      if j != k { InsertedOld(s, x, k, r, j); }
    }
  }

  lemma {:induction false} InsertedDistinct(s: seq<Stake>, x: Stake, k: nat, r: seq<Stake>)
    requires Inserted(s, x, k, r)
    ensures DistinctIdentities(s) && (forall y :: y in s ==> y.identity != x.identity) ==> DistinctIdentities(r)
  {
    if DistinctIdentities(s) && forall y :: y in s ==> y.identity != x.identity {
      forall i, j | 0 <= i < |r| && 0 <= j < |r| && r[i].identity == r[j].identity ensures i == j {
        if i != k { InsertedOld(s, x, k, r, i); }
        if j != k { InsertedOld(s, x, k, r, j); }
      }
    }
  }

  lemma {:induction false} CumulativeInsert(s: seq<Stake>, x: Stake, k: nat, n: nat)
    requires k <= n <= |s|
    ensures Cumulative(s[..k] + [x] + s[k..], n + 1) == Cumulative(s, n) + x.amount
    decreases n
  {
    var r := s[..k] + [x] + s[k..];
    if n == k {
      CumulativePrefix(s, r, k);
    } else {
      CumulativeInsert(s, x, k, n - 1);
      assert r[n] == s[n - 1];
    }
  }

  lemma {:induction false} CumulativePrefix(a: seq<Stake>, b: seq<Stake>, n: nat)
    requires n <= |a| && n <= |b| && forall i :: 0 <= i < n ==> a[i] == b[i]
    ensures Cumulative(a, n) == Cumulative(b, n)
  {
    if n == 0 {
    } else {
      CumulativePrefix(a, b, n - 1);
    }
  }

  /** Keeps the validators with stake, in the order of their identities. */
  method ActiveStakes(stakes: seq<Stake>) returns (active: seq<Stake>)
    ensures ActiveOf(stakes, active)
  {
    hide SortedByIdentity, DistinctIdentities, Cumulative;
    active := [];
    ActiveNone(stakes);
    for n := 0 to |stakes|
      invariant ActiveOf(stakes[..n], active)
    {
      ActiveStep(stakes, n, active);
      if stakes[n].amount > 0 {
        active := InsertSorted(active, stakes[n]);
      }
      ActiveNext(stakes, n);
    }
    assert stakes[..|stakes|] == stakes;
  }

  lemma {:induction false} ActiveNone(stakes: seq<Stake>)
    ensures ActiveOf(stakes[..0], [])
  {
  }

  lemma {:induction false} ActiveNext(stakes: seq<Stake>, n: nat)
    requires n < |stakes|
    ensures forall y :: y in stakes[..n + 1] <==> y == stakes[n] || y in stakes[..n]
    ensures Cumulative(stakes[..n + 1], n + 1) == Cumulative(stakes[..n], n) + stakes[n].amount
    ensures DistinctIdentities(stakes[..n + 1]) ==> DistinctIdentities(stakes[..n])
    ensures DistinctIdentities(stakes[..n + 1]) ==> forall y :: y in stakes[..n] ==> y.identity != stakes[n].identity
  {
    assert stakes[..n + 1] == stakes[..n] + [stakes[n]];
    CumulativePrefix(stakes[..n + 1], stakes[..n], n);
  }

  lemma {:induction false} ActiveStep(stakes: seq<Stake>, n: nat, active: seq<Stake>)
    requires n < |stakes| && ActiveOf(stakes[..n], active)
    ensures SortedByIdentity(active)
  {
  }

  /** Every leader has stake. */
  lemma {:induction false} LeadersHaveStake(draw: Draw, seed: Digest, stakes: seq<Stake>, n: nat, leader: Address)
    requires Cumulative(stakes, |stakes|) > 0 && AlwaysSettles(draw, LimitOf(stakes))
    requires LeadsGroup(draw, seed, stakes, n, leader)
    ensures exists i :: 0 <= i < |stakes| && stakes[i].identity == leader && stakes[i].amount > 0
  {
    var i: nat :| InStretch(stakes, draw(StateAt(draw, seed, LimitOf(stakes), n)) % Cumulative(stakes, |stakes|), i) &&
        stakes[i].identity == leader;
    assert stakes[i].amount > 0;
  }

  function EpochSeed(seed: Digest, epoch: nat): (r: Digest) {
    Mix(seed, epoch)
  }

  // ---------------------------------------------------------------------------------
  // States of the generator never repeat

  lemma {:induction false} MixInjective(s: Digest, m: U64, t: Digest, n: U64)
    ensures Mix(s, m) == Mix(t, n) <==> s == t && m == n
  {
    var x, y := [Sub(s)] + LittleEndian(m, 8), [Sub(t)] + LittleEndian(n, 8);
    if x == y {
      SplitEqual([Sub(s)], LittleEndian(m, 8), [Sub(t)], LittleEndian(n, 8));
      assert [Sub(s)][0] == [Sub(t)][0];
      Pow256Of8();
      LittleEndianInjective(m, n, 8);
    }
  }

  /** A redraw mixes the refused value in, as a draw mixes in its number. */
  lemma {:induction false} RedrawMixes(draw: Draw, s: Digest)
    ensures Redraw(draw, s) == Mix(s, draw(s))
  {
  }

  /** What is hashed: the state, and the eight bytes that spell the number. */
  lemma {:induction false} MixLayout(s: Digest, n: U64)
    ensures Mix(s, n).Hashed? && |Mix(s, n).input| == 9 && Mix(s, n).input[0] == Sub(s)
    ensures Spells(Mix(s, n).input[1..9], n)
  {
    hide LittleEndian, Spells;
    EightBytesSpell(n);
    var bytes := LittleEndian(n, 8);
    assert ([Sub(s)] + bytes)[1..9] == bytes;
  }

  /** Different epochs, or different epoch seeds, start from different states. */
  lemma {:induction false} EpochSeedInjective(s: Digest, e: U64, t: Digest, f: U64)
    ensures EpochSeed(s, e) == EpochSeed(t, f) <==> s == t && e == f
  {
    hide Mix;
    MixInjective(s, e, t, f);
  }

  /** How often a digest hashes a digest first of all. */
  ghost function Depth(d: Digest): (r: nat) {
    match d
    case ZeroDigest => 0
    case Hashed(input) => if |input| > 0 && input[0].Sub? then 1 + Depth(input[0].d) else 0
  }

  /** `x` is found by going from `d` to the digest it hashes first, again and again. */
  ghost predicate OnChain(d: Digest, x: Digest) {
    d == x || (d.Hashed? && |d.input| > 0 && d.input[0].Sub? && OnChain(d.input[0].d, x))
  }

  lemma {:induction false} ChainDepth(d: Digest, x: Digest)
    requires OnChain(d, x)
    ensures Depth(x) <= Depth(d) && (d != x ==> Depth(x) < Depth(d))
  {
    if d == x {
    } else {
      ChainDepth(d.input[0].d, x);
    }
  }

  lemma {:induction false} ChainUnique(d: Digest, x: Digest, y: Digest)
    requires OnChain(d, x) && OnChain(d, y) && Depth(x) == Depth(y)
    ensures x == y
  {
    ChainDepth(d, x);
    ChainDepth(d, y);
    if d == x || d == y {
    } else {
      ChainUnique(d.input[0].d, x, y);
    }
  }

  lemma {:induction false} OneMore(s: Digest, tail: seq<Token>, x: Digest)
    ensures Depth(Hashed([Sub(s)] + tail)) == Depth(s) + 1
    ensures OnChain(s, x) ==> OnChain(Hashed([Sub(s)] + tail), x)
  {
    assert ([Sub(s)] + tail)[0] == Sub(s);
  }

  lemma {:induction false} SettledOnChain(draw: Draw, s: Digest, limit: nat, n: nat, x: Digest)
    requires SettlesIn(draw, s, limit, n) && OnChain(s, x)
    ensures OnChain(Settled(draw, s, limit, n), x)
    decreases n
  {
    hide OnChain;
    if draw(s) < limit {
    } else {
      OneMore(s, LittleEndian(draw(s), 8), x);
      SettledOnChain(draw, Redraw(draw, s), limit, n - 1, x);
    }
  }

  /** Every later state is deeper and has the earlier ones on its chain. */
  lemma {:induction false} StateOnChain(draw: Draw, seed: Digest, limit: nat, n: nat, x: Digest)
    requires AlwaysSettles(draw, limit) && OnChain(if n == 0 then seed else StateAt(draw, seed, limit, n - 1), x)
    ensures OnChain(StateAt(draw, seed, limit, n), x) && Depth(StateAt(draw, seed, limit, n)) > Depth(x)
  {
    var before := if n == 0 then seed else StateAt(draw, seed, limit, n - 1);
    var mixed := Mix(before, n);
    OneMore(before, LittleEndian(n, 8), x);
    OneMore(before, LittleEndian(n, 8), mixed);
    assert OnChain(mixed, mixed);
    assert Settles(draw, mixed, limit);
    var k: nat :| SettlesIn(draw, mixed, limit, k);
    SettledStateIs(draw, mixed, limit, k);
    SettledOnChain(draw, mixed, limit, k, mixed);
    SettledOnChain(draw, mixed, limit, k, x);
    ChainDepth(before, x);
    ChainDepth(Settled(draw, mixed, limit, k), mixed);
  }

  lemma {:induction false} StatesDeepen(draw: Draw, seed: Digest, limit: nat, m: nat, n: nat)
    requires AlwaysSettles(draw, limit) && m < n
    ensures OnChain(StateAt(draw, seed, limit, n), StateAt(draw, seed, limit, m))
    ensures Depth(StateAt(draw, seed, limit, n)) > Depth(StateAt(draw, seed, limit, m))
    decreases n
  {
    hide StateAt, AlwaysSettles;
    var x := StateAt(draw, seed, limit, m);
    if m == n - 1 {
    } else {
      StatesDeepen(draw, seed, limit, m, n - 1);
    }
    StateOnChain(draw, seed, limit, n, x);
  }

  lemma {:induction false} SeedOnChain(draw: Draw, seed: Digest, limit: nat, n: nat)
    requires AlwaysSettles(draw, limit)
    ensures OnChain(StateAt(draw, seed, limit, n), seed)
  {
    hide AlwaysSettles;
    assert OnChain(seed, seed);
    if n == 0 {
    } else {
      SeedOnChain(draw, seed, limit, n - 1);
    }
    hide StateAt;
    StateOnChain(draw, seed, limit, n, seed);
  }

  /** No state of the generator occurs twice: not for two draws of an epoch, and not in two
      epochs of one seed, whatever their stakes are. */
  lemma {:induction false} StatesNeverRepeat(draw: Draw, seed: Digest, e: U64, f: U64, k: nat, l: nat, m: nat, n: nat)
    requires AlwaysSettles(draw, k) && AlwaysSettles(draw, l)
    requires StateAt(draw, EpochSeed(seed, e), k, m) == StateAt(draw, EpochSeed(seed, f), l, n)
    ensures e == f && (k == l ==> m == n)
  {
    hide StateAt, AlwaysSettles, OnChain;
    SeedOnChain(draw, EpochSeed(seed, e), k, m);
    SeedOnChain(draw, EpochSeed(seed, f), l, n);
    OneMore(seed, LittleEndian(e, 8), seed);
    OneMore(seed, LittleEndian(f, 8), seed);
    ChainUnique(StateAt(draw, EpochSeed(seed, e), k, m), EpochSeed(seed, e), EpochSeed(seed, f));
    EpochSeedInjective(seed, e, seed, f);
    if k == l && m < n { StatesDeepen(draw, EpochSeed(seed, e), k, m, n); }
    if k == l && n < m { StatesDeepen(draw, EpochSeed(seed, e), k, n, m); }
  }

  /** Redrawing ends, for the stakes of an epoch whose draws are used at all. */
  ghost predicate DrawsSettle(draw: Draw, stakes: seq<Stake>) {
    0 < Cumulative(stakes, |stakes|) <= U64_MAX ==> AlwaysSettles(draw, LimitOf(stakes))
  }

  method ComputeSchedule(draw: Draw, epoch: U64, stakes: seq<Stake>, epochSeed: Digest, slots: nat)
    returns (r: Result<seq<Address>, ScheduleError>, ghost active: seq<Stake>)
    requires DrawsSettle(draw, stakes)
    ensures ActiveOf(stakes, active)
    ensures r == Err(NoValidatorsWithStake(epoch)) <==> forall i :: 0 <= i < |stakes| ==> stakes[i].amount == 0
    ensures r == Err(StakeOverflow(epoch)) <==> Cumulative(stakes, |stakes|) > U64_MAX
    ensures r.Ok? ==>
              && Cumulative(active, |active|) > 0 && AlwaysSettles(draw, LimitOf(active))
              && |r.value| == slots && Schedules(draw, EpochSeed(epochSeed, epoch), active, r.value)
              && (forall k :: 0 <= k < slots ==>
                    LeadsGroup(draw, Mix(epochSeed, epoch), active, k / 4, r.value[k]))
  {
    hide Settles, SettledState, AlwaysSettles, SortedByIdentity, DistinctIdentities, Schedules, StateAt, LimitOf;
    hide EpochSeed, Cumulative, LeadsGroup;
    var list := ActiveStakes(stakes);
    active := list;
    ActiveEmpty(stakes, list);
    if |list| == 0 {
      return Err(NoValidatorsWithStake(epoch)), active;
    }
    var total := SumStakes(list);
    if total.None? {
      return Err(StakeOverflow(epoch)), active;
    }
    ghost var seed := EpochSeed(epochSeed, epoch);
    SameLimit(stakes, list);
    var leaders := [];
    NoneScheduled(draw, seed, list);
    var state := EpochSeed(epochSeed, epoch);
    var assignments := slots / NUM_CONSECUTIVE_LEADER_SLOTS;
    for a := 0 to assignments
      invariant |leaders| == NUM_CONSECUTIVE_LEADER_SLOTS * a
      invariant state == if a == 0 then seed else StateAt(draw, seed, LimitOf(list), a - 1)
      invariant Schedules(draw, seed, list, leaders)
    {
      state, leaders := Assign(draw, seed, list, total.value, state, a, NUM_CONSECUTIVE_LEADER_SLOTS, leaders);
    }
    var remainder := slots - assignments * NUM_CONSECUTIVE_LEADER_SLOTS;
    if remainder > 0 {
      state, leaders := Assign(draw, seed, list, total.value, state, assignments, remainder, leaders);
    }
    ByGroups(draw, epochSeed, epoch, list, leaders);
    r := Ok(leaders);
  }

  lemma {:induction false} ByGroups(draw: Draw, epochSeed: Digest, epoch: nat, stakes: seq<Stake>,
      leaders: seq<Address>)
    requires Cumulative(stakes, |stakes|) > 0 && AlwaysSettles(draw, LimitOf(stakes))
    requires Schedules(draw, EpochSeed(epochSeed, epoch), stakes, leaders)
    ensures forall k :: 0 <= k < |leaders| ==> LeadsGroup(draw, Mix(epochSeed, epoch), stakes, k / 4, leaders[k])
  {
    hide LeadsGroup, AlwaysSettles, LimitOf, Cumulative, Mix;
  }

  /** One draw, and its leader for the next slots. */
  method Assign(draw: Draw, ghost seed: Digest, stakes: seq<Stake>, total: U64, state: Digest, n: nat, count: nat,
      leaders: seq<Address>)
      returns (next: Digest, more: seq<Address>)
    requires total == Cumulative(stakes, |stakes|) > 0 && AlwaysSettles(draw, LimitOf(stakes))
    requires |leaders| == NUM_CONSECUTIVE_LEADER_SLOTS * n && 0 < count <= NUM_CONSECUTIVE_LEADER_SLOTS
    requires state == if n == 0 then seed else StateAt(draw, seed, LimitOf(stakes), n - 1)
    requires Schedules(draw, seed, stakes, leaders)
    ensures next == StateAt(draw, seed, LimitOf(stakes), n)
    ensures |more| == |leaders| + count && Schedules(draw, seed, stakes, more)
  {
    hide Settles, SettledState, InStretch, LimitOf, AlwaysSettles, StateAt, Schedules, LeadsGroup, Cumulative;
    NextState(draw, seed, LimitOf(stakes), n);
    var selected;
    ghost var i;
    next, selected, i := PickValidator(draw, Mix(state, n), stakes, total);
    LeaderOf(draw, seed, stakes, n, i);
    more := leaders;
    for k := 0 to count
      invariant |more| == |leaders| + k && Schedules(draw, seed, stakes, more)
    {
      assert |more| / NUM_CONSECUTIVE_LEADER_SLOTS == n;
      ExtendSchedule(draw, seed, stakes, more, selected);
      more := more + [selected];
    }
  }

  lemma {:induction false} NextState(draw: Draw, seed: Digest, limit: nat, n: nat)
    requires AlwaysSettles(draw, limit)
    ensures var state := if n == 0 then seed else StateAt(draw, seed, limit, n - 1);
            Settles(draw, Mix(state, n), limit) &&
                StateAt(draw, seed, limit, n) == SettledState(draw, Mix(state, n), limit)
  {
    var state := if n == 0 then seed else StateAt(draw, seed, limit, n - 1);
    assert Settles(draw, Mix(state, n), limit);
  }

  lemma {:induction false} LeaderOf(draw: Draw, seed: Digest, stakes: seq<Stake>, n: nat, i: nat)
    requires Cumulative(stakes, |stakes|) > 0 && AlwaysSettles(draw, LimitOf(stakes))
    requires InStretch(stakes, draw(StateAt(draw, seed, LimitOf(stakes), n)) % Cumulative(stakes, |stakes|), i)
    ensures i < |stakes| && LeadsGroup(draw, seed, stakes, n, stakes[i].identity)
  {
  }

  lemma {:induction false} ExtendSchedule(draw: Draw, seed: Digest, stakes: seq<Stake>, leaders: seq<Address>,
      leader: Address)
    requires Cumulative(stakes, |stakes|) > 0 && AlwaysSettles(draw, LimitOf(stakes))
    requires Schedules(draw, seed, stakes, leaders)
    requires LeadsGroup(draw, seed, stakes, |leaders| / NUM_CONSECUTIVE_LEADER_SLOTS, leader)
    ensures Schedules(draw, seed, stakes, leaders + [leader])
  {
    hide LeadsGroup, AlwaysSettles, LimitOf, Cumulative;
    var more := leaders + [leader];
    forall k | 0 <= k < |more| ensures LeadsGroup(draw, seed, stakes, k / NUM_CONSECUTIVE_LEADER_SLOTS, more[k]) {
      if k < |leaders| { assert more[k] == leaders[k]; }
    }
  }

  lemma {:induction false} NoneScheduled(draw: Draw, seed: Digest, stakes: seq<Stake>)
    requires Cumulative(stakes, |stakes|) > 0 && AlwaysSettles(draw, LimitOf(stakes))
    ensures Schedules(draw, seed, stakes, [])
  {
  }

  /** The limit depends on the stakes through their sum alone. */
  lemma {:induction false} SameLimit(a: seq<Stake>, b: seq<Stake>)
    requires Cumulative(a, |a|) == Cumulative(b, |b|) > 0
    ensures LimitOf(a) == LimitOf(b)
  {
  }

  method SumStakes(stakes: seq<Stake>) returns (total: Option<U64>)
    ensures total == if Cumulative(stakes, |stakes|) <= U64_MAX then Some(Cumulative(stakes, |stakes|)) else None
  {
    var sum: U64 := 0;
    for n := 0 to |stakes|
      invariant sum == Cumulative(stakes, n)
    {
      CumulativeMonotone(stakes, n + 1, |stakes|);
      if sum + stakes[n].amount > U64_MAX {
        return None;
      }
      sum := sum + stakes[n].amount;
    }
    total := Some(sum);
  }

  lemma {:induction false} ActiveEmpty(stakes: seq<Stake>, active: seq<Stake>)
    requires ActiveOf(stakes, active)
    ensures active == [] <==> forall i :: 0 <= i < |stakes| ==> stakes[i].amount == 0
    ensures active != [] <==> Cumulative(active, |active|) > 0
  {
    if active != [] {
      assert active[0] in stakes && active[0].amount > 0;
      CumulativeMonotone(active, 1, |active|);
      assert Cumulative(active, 1) == Cumulative(active, 0) + active[0].amount;
    }
    forall i | 0 <= i < |stakes| ensures stakes[i].amount > 0 ==> active != [] {
      if stakes[i].amount > 0 { assert stakes[i] in active; }
    }
  }

  /** Two nodes that list the same validators in different orders compute one schedule. */
  lemma {:induction false} InputOrderIrrelevant(draw: Draw, seed: Digest, a: seq<Stake>, b: seq<Stake>, x: seq<Stake>,
      y: seq<Stake>, p: seq<Address>, q: seq<Address>)
    requires ActiveOf(a, x) && ActiveOf(b, y) && DistinctIdentities(a) && DistinctIdentities(b)
    requires forall s :: s in a <==> s in b
    requires Cumulative(x, |x|) > 0 && AlwaysSettles(draw, LimitOf(x)) && Cumulative(y, |y|) > 0
    requires AlwaysSettles(draw, LimitOf(y))
    requires Schedules(draw, seed, x, p) && Schedules(draw, seed, y, q) && |p| == |q|
    ensures p == q
  {
    hide Schedules, AlwaysSettles, LimitOf, Cumulative;
    ActiveUnique(a, b, x, y);
    ScheduleDetermined(draw, seed, x, p, q);
  }
}
