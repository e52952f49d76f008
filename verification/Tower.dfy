/** The vote tower (consensus/src/tower.rs, with the lockout rule of vote-program/src/lib.rs).

    A lockout on a slot lasts through slot + 2^count, inclusive.  The source filters the
    whole list by lockout, bumps all survivors and drains everything deep enough; on every
    reachable tower that is the same as popping a stack and rooting at most its bottom. */
module Towers {
  import opened Arithmetic
  import opened Crypto

  const MAX_LOCKOUT_HISTORY: nat := 31

  datatype Lockout = Lockout(slot: U64, count: nat)
  datatype VoteError = EmptyVoteSlots | VoteTooOld(vote: nat, root: nat) | LockoutViolation(vote: nat, locked: nat)
  datatype VoteResult = VoteResult(newRoots: seq<nat>, expired: seq<Lockout>)
  datatype Stack = Stack(votes: seq<Lockout>, root: Option<nat>)

  /** Still locked out at a slot; sums saturate at the largest 64-bit number. */
  predicate LockedOutAt(l: Lockout, slot: nat) {
    SaturatingAdd(l.slot, Pow2(if l.count < 63 then l.count else 63)) >= slot
  }

  /** For counts a tower can hold and 64-bit slots, neither cap nor saturation matters. */
  lemma {:induction false} LockoutSpan(l: Lockout, slot: U64)
    requires l.count <= 63
    ensures LockedOutAt(l, slot) <==> l.slot + Pow2(l.count) >= slot
  {
  }

  // ---------------------------------------------------------------------------------
  // The stack

  /** Slots rise, counts fall, and later lockouts expire no later than earlier ones. */
  ghost predicate Tapered(votes: seq<Lockout>, cap: nat) {
    && (forall i :: 0 <= i < |votes| ==> 1 <= votes[i].count <= cap)
    && (forall i, j :: 0 <= i < j < |votes| ==> votes[i].slot < votes[j].slot && votes[i].count > votes[j].count)
    && (forall i, j :: 0 <= i < j < |votes| ==>
          votes[i].slot + Pow2(votes[i].count) >= votes[j].slot + Pow2(votes[j].count))
  }

  /** ... down to a count of one at the top. */
  ghost predicate Nested(votes: seq<Lockout>) {
    Tapered(votes, MAX_LOCKOUT_HISTORY - 1) && (|votes| > 0 ==> votes[|votes| - 1].count == 1)
  }

  ghost predicate AboveRoot(s: Stack) {
    s.root.Some? ==> forall i :: 0 <= i < |s.votes| ==> s.votes[i].slot > s.root.value
  }

  ghost predicate WellFormed(s: Stack) {
    Nested(s.votes) && AboveRoot(s)
  }

  /** Pops expired lockouts off the top. */
  function PopExpired(votes: seq<Lockout>, slot: nat): (r: seq<Lockout>)
    ensures r <= votes
    ensures |r| > 0 ==> LockedOutAt(r[|r| - 1], slot)
    ensures |r| < |votes| ==> !LockedOutAt(votes[|r|], slot)
  {
    if |votes| > 0 && !LockedOutAt(votes[|votes| - 1], slot) then PopExpired(votes[..|votes| - 1], slot) else votes
  }

  function Bump(votes: seq<Lockout>): (r: seq<Lockout>)
    ensures |r| == |votes|
    ensures forall i :: 0 <= i < |r| ==> r[i] == Lockout(votes[i].slot, votes[i].count + 1)
  {
    seq(|votes|, i requires 0 <= i < |votes| => Lockout(votes[i].slot, votes[i].count + 1))
  }

  /** A vote is accepted exactly above the root and above the last vote. */
  predicate Accepts(s: Stack, slot: nat) {
    && (s.root.Some? ==> slot > s.root.value)
    && (|s.votes| > 0 ==> slot > s.votes[|s.votes| - 1].slot)
  }

  /** Pop, bump, push; a bottom that reaches the maximum depth becomes the root. */
  function Push(s: Stack, slot: U64): (r: Stack) {
    var bumped := Bump(PopExpired(s.votes, slot)) + [Lockout(slot, 1)];
    if bumped[0].count >= MAX_LOCKOUT_HISTORY then Stack(bumped[1..], Some(bumped[0].slot))
    else Stack(bumped, s.root)
  }

  /** What survives a pop is still locked out, all of it. */
  lemma {:induction false} KeptAreLocked(votes: seq<Lockout>, slot: U64, i: nat)
    requires Nested(votes) && i < |PopExpired(votes, slot)|
    ensures votes[i].slot + Pow2(votes[i].count) >= slot
  {
    var kept := PopExpired(votes, slot);
    var top := |kept| - 1;
    assert kept[top] == votes[top];
    LockoutSpan(votes[top], slot);
  }

  /** Everything popped has expired. */
  lemma {:induction false} PoppedAreExpired(votes: seq<Lockout>, slot: U64, i: nat)
    requires Nested(votes) && |PopExpired(votes, slot)| <= i < |votes|
    ensures !LockedOutAt(votes[i], slot)
  {
    var k := |PopExpired(votes, slot)|;
    LockoutSpan(votes[k], slot);
    LockoutSpan(votes[i], slot);
  }

  lemma {:induction false} BumpTapers(votes: seq<Lockout>, slot: U64, cap: nat)
    requires Tapered(votes, cap) && (|votes| > 0 ==> slot > votes[|votes| - 1].slot)
    requires forall i :: 0 <= i < |votes| ==> votes[i].slot + Pow2(votes[i].count) >= slot
    ensures Tapered(Bump(votes) + [Lockout(slot, 1)], cap + 1)
  {
    var n, r := |votes|, Bump(votes) + [Lockout(slot, 1)];
    forall i, j | 0 <= i < j < |r|
      ensures r[i].slot < r[j].slot && r[i].count > r[j].count
      ensures r[i].slot + Pow2(r[i].count) >= r[j].slot + Pow2(r[j].count)
    {
      assert Pow2(r[i].count) == 2 * Pow2(votes[i].count);
      if j < n {
        assert Pow2(r[j].count) == 2 * Pow2(votes[j].count);
        Pow2Grows(votes[j].count, votes[i].count);
      } else {
        assert votes[i].slot <= votes[n - 1].slot < slot;
        assert Pow2(1) == 2 * Pow2(0);
      }
    }
  }

  lemma {:induction false} PrefixTapered(votes: seq<Lockout>, k: nat, cap: nat)
    requires Tapered(votes, cap) && k <= |votes|
    ensures Tapered(votes[..k], cap)
  {
  }

  /** The list after pop, bump and push, before any rooting. */
  lemma {:induction false} BumpedTapers(votes: seq<Lockout>, slot: U64)
    requires Nested(votes) && (|votes| > 0 ==> slot > votes[|votes| - 1].slot)
    ensures Tapered(Bump(PopExpired(votes, slot)) + [Lockout(slot, 1)], MAX_LOCKOUT_HISTORY)
  {
    hide Pow2, LockedOutAt;
    var kept := PopExpired(votes, slot);
    assert kept == votes[..|kept|];
    PrefixTapered(votes, |kept|, MAX_LOCKOUT_HISTORY - 1);
    forall i | 0 <= i < |kept| ensures kept[i].slot + Pow2(kept[i].count) >= slot {
      KeptAreLocked(votes, slot, i);
    }
    assert |kept| > 0 ==> votes[|kept| - 1].slot <= votes[|votes| - 1].slot;
    BumpTapers(kept, slot, MAX_LOCKOUT_HISTORY - 1);
  }

  lemma {:induction false} DropBottom(r: seq<Lockout>, cap: nat)
    requires |r| > 0 && cap > 0 && Tapered(r, cap)
    ensures Tapered(r[1..], cap - 1)
  {
    forall i | 1 <= i < |r| ensures r[i].count <= cap - 1 {
      assert r[0].count > r[i].count;
    }
  }

  lemma {:induction false} NotYetRooted(r: seq<Lockout>, cap: nat)
    requires |r| > 0 && cap > 0 && Tapered(r, cap) && r[0].count < cap
    ensures Tapered(r, cap - 1)
  {
    forall i | 0 <= i < |r| ensures r[i].count <= cap - 1 {
      assert i > 0 ==> r[0].count > r[i].count;
    }
  }

  /** An accepted vote keeps the tower well formed and ends up on top; if it sets a root,
      the new root is the old bottom slot, above any earlier root. */
  lemma {:induction false} PushKeepsWellFormed(s: Stack, slot: U64)
    requires WellFormed(s) && Accepts(s, slot)
    ensures var t := Push(s, slot);
            && WellFormed(t)
            && |t.votes| > 0 && t.votes[|t.votes| - 1] == Lockout(slot, 1)
            && (t.root == s.root || (t.root.Some? && |s.votes| > 0 && t.root.value == s.votes[0].slot))
            && (s.root.Some? ==> t.root.Some? && (t.root == s.root || t.root.value > s.root.value))
  {
    hide Pow2, LockedOutAt, Tapered;
    var kept := PopExpired(s.votes, slot);
    var bumped := Bump(kept) + [Lockout(slot, 1)];
    BumpedTapers(s.votes, slot);
    assert |kept| > 0 ==> kept[0] == s.votes[0];
    if bumped[0].count >= MAX_LOCKOUT_HISTORY {
      DropBottom(bumped, MAX_LOCKOUT_HISTORY);
      FirstIsLowest(bumped, MAX_LOCKOUT_HISTORY);
    } else {
      NotYetRooted(bumped, MAX_LOCKOUT_HISTORY);
      forall i | 0 <= i < |bumped| ensures s.root.Some? ==> bumped[i].slot > s.root.value {
        if i < |kept| { assert kept[i] == s.votes[i]; }
      }
    }
  }

  /** A lockout lasts through its slot plus two to its count. */
  ghost predicate Lasts(l: Lockout, slot: nat) {
    l.slot + Pow2(l.count) >= slot
  }

  /** What an accepted vote leaves of a tower: on top the vote itself, once confirmed; below it,
      in order, every lockout that lasts to the vote, confirmed once more, unless it was
      confirmed 30 times before.  That one becomes the root. */
  ghost predicate AfterVote(was: Stack, slot: U64, now: Stack) {
    && (forall l :: l in was.votes ==>
          (Lockout(l.slot, l.count + 1) in now.votes <==> Lasts(l, slot) && l.count + 1 < 31))
    && (forall n :: n in now.votes ==>
          n == Lockout(slot, 1) || exists l :: l in was.votes && n == Lockout(l.slot, l.count + 1))
    && |now.votes| > 0 && now.votes[|now.votes| - 1] == Lockout(slot, 1)
    && (forall i, j :: 0 <= i < j < |now.votes| ==> now.votes[i].slot < now.votes[j].slot)
    && now.root == if |was.votes| > 0 && Lasts(was.votes[0], slot) && was.votes[0].count == 30
                   then Some(was.votes[0].slot) else was.root
  }

  lemma {:induction false} BumpedIs(votes: seq<Lockout>, slot: U64, i: nat)
    requires Nested(votes) && i < |votes|
    ensures Lasts(votes[i], slot) <==> i < |PopExpired(votes, slot)|
    ensures i < |PopExpired(votes, slot)| ==>
              (Bump(PopExpired(votes, slot)) + [Lockout(slot, 1)])[i] == Lockout(votes[i].slot, votes[i].count + 1)
  {
    hide Pow2, PopExpired, Tapered;
    ActiveIsKept(votes, slot, i);
    CountSmall(votes, i);
    LockoutSpan(votes[i], slot);
  }

  lemma {:induction false} CountSmall(votes: seq<Lockout>, i: nat)
    requires Nested(votes) && i < |votes|
    ensures 1 <= votes[i].count <= 30
  {
  }

  /** The list after pop, bump and push, less the bottom if it is rooted. */
  ghost function Rooted(votes: seq<Lockout>, slot: U64): (off: nat) {
    if |PopExpired(votes, slot)| > 0 && votes[0].count == 30 then 1 else 0
  }

  ghost function Bumped(votes: seq<Lockout>, slot: U64): (r: seq<Lockout>)
    ensures |r| == |PopExpired(votes, slot)| + 1 && r[|r| - 1] == Lockout(slot, 1)
  {
    Bump(PopExpired(votes, slot)) + [Lockout(slot, 1)]
  }

  lemma {:induction false} PushIs(s: Stack, slot: U64)
    requires Nested(s.votes)
    ensures var off := Rooted(s.votes, slot);
            Push(s, slot) == Stack(Bumped(s.votes, slot)[off..], if off == 1 then Some(s.votes[0].slot) else s.root)
  {
    hide Pow2, PopExpired, Tapered, Bump;
    RootedFirst(s.votes, slot);
    assert Bumped(s.votes, slot)[0..] == Bumped(s.votes, slot);
  }

  /** The push does exactly that. */
  lemma {:induction false} PushIsAfterVote(s: Stack, slot: U64)
    requires WellFormed(s) && Accepts(s, slot)
    ensures AfterVote(s, slot, Push(s, slot))
  {
    hide Pow2, PopExpired, Tapered, Bump, Bumped, Rooted, Push, Lasts, AfterVote;
    var now, bumped, off := Push(s, slot), Bumped(s.votes, slot), Rooted(s.votes, slot);
    BumpedRises(s.votes, slot);
    PushIs(s, slot);
    RootedIff(s.votes, slot);
    assert now.votes == bumped[off..];
    forall l | l in s.votes
      ensures Lockout(l.slot, l.count + 1) in now.votes <==> Lasts(l, slot) && l.count + 1 < 31
    {
      var i :| 0 <= i < |s.votes| && s.votes[i] == l;
      LockoutAfter(s.votes, slot, i);
    }
    forall n | n in now.votes
      ensures n == Lockout(slot, 1) || exists l :: l in s.votes && n == Lockout(l.slot, l.count + 1)
    {
      ComesFrom(s.votes, slot, n);
    }
    IsAfterVote(s, slot, now, off);
  }

  lemma {:induction false} BumpedRises(votes: seq<Lockout>, slot: U64)
    requires Nested(votes) && (|votes| > 0 ==> slot > votes[|votes| - 1].slot)
    ensures forall i, j :: 0 <= i < j < |Bumped(votes, slot)| ==>
              Bumped(votes, slot)[i].slot < Bumped(votes, slot)[j].slot
  {
    hide Pow2, PopExpired, Tapered, Bump;
    BumpedTapers(votes, slot);
    SlotsRise(Bumped(votes, slot), MAX_LOCKOUT_HISTORY);
  }

  lemma {:induction false} RootedIff(votes: seq<Lockout>, slot: U64)
    requires Nested(votes)
    ensures Rooted(votes, slot) <= 1 && Rooted(votes, slot) < |Bumped(votes, slot)|
    ensures Rooted(votes, slot) == 1 <==> |votes| > 0 && Lasts(votes[0], slot) && votes[0].count == 30
  {
    hide Pow2, PopExpired, Tapered, Lasts, Bump;
    if |votes| > 0 { BumpedIs(votes, slot, 0); }
  }

  lemma {:induction false} IsAfterVote(s: Stack, slot: U64, now: Stack, off: nat)
    requires forall l :: l in s.votes ==>
               (Lockout(l.slot, l.count + 1) in now.votes <==> Lasts(l, slot) && l.count + 1 < 31)
    requires forall n :: n in now.votes ==>
               n == Lockout(slot, 1) || exists l :: l in s.votes && n == Lockout(l.slot, l.count + 1)
    requires |now.votes| > 0 && now.votes[|now.votes| - 1] == Lockout(slot, 1)
    requires forall i, j :: 0 <= i < j < |now.votes| ==> now.votes[i].slot < now.votes[j].slot
    requires off == 1 ==> |s.votes| > 0
    requires |s.votes| > 0 ==> (off == 1 <==> Lasts(s.votes[0], slot) && s.votes[0].count == 30)
    requires now.root == if off == 1 then Some(s.votes[0].slot) else s.root
    ensures AfterVote(s, slot, now)
  {
    hide Lasts;
  }

  lemma {:induction false} ComesFrom(votes: seq<Lockout>, slot: U64, n: Lockout)
    requires n in Bumped(votes, slot)[Rooted(votes, slot)..]
    ensures n == Lockout(slot, 1) || exists l :: l in votes && n == Lockout(l.slot, l.count + 1)
  {
    hide PopExpired;
    var r := Bumped(votes, slot);
    var k :| 0 <= k < |r| && r[k] == n;
    if k < |r| - 1 {
      assert n == Lockout(votes[k].slot, votes[k].count + 1) && votes[k] in votes;
    }
  }

  lemma {:induction false} SlotsRise(r: seq<Lockout>, cap: nat)
    requires Tapered(r, cap)
    ensures forall i, j :: 0 <= i < j < |r| ==> r[i].slot < r[j].slot
  {
  }

  /** Only a bottom confirmed 30 times reaches the maximum. */
  lemma {:induction false} RootedFirst(votes: seq<Lockout>, slot: U64)
    requires Nested(votes)
    ensures var bumped := Bump(PopExpired(votes, slot)) + [Lockout(slot, 1)];
            bumped[0].count >= MAX_LOCKOUT_HISTORY <==> |PopExpired(votes, slot)| > 0 && votes[0].count == 30
  {
    hide Pow2, PopExpired;
  }

  lemma {:induction false} LockoutAfter(votes: seq<Lockout>, slot: U64, i: nat)
    requires Nested(votes) && i < |votes| && slot > votes[|votes| - 1].slot
    ensures var l := votes[i];
            Lockout(l.slot, l.count + 1) in Bumped(votes, slot)[Rooted(votes, slot)..] <==>
            Lasts(l, slot) && l.count + 1 < 31
  {
    hide Pow2, PopExpired, Lasts, Tapered;
    var r, off, l := Bumped(votes, slot), Rooted(votes, slot), votes[i];
    BumpedIs(votes, slot, i);
    CountSmall(votes, i);
    CountSmall(votes, 0);
    BottomHighest(votes, i);
    SlotsRise(votes, MAX_LOCKOUT_HISTORY - 1);
    if Lasts(l, slot) && l.count + 1 < 31 {
      assert r[off..][i - off] == Lockout(l.slot, l.count + 1);
    }
    if Lockout(l.slot, l.count + 1) in r[off..] {
      var k :| off <= k < |r| && r[k] == Lockout(l.slot, l.count + 1);
      assert k < |PopExpired(votes, slot)| && votes[k].slot == l.slot;
      assert k == i;
    }
  }

  lemma {:induction false} BottomHighest(votes: seq<Lockout>, i: nat)
    requires Nested(votes) && i < |votes|
    ensures i > 0 ==> votes[0].count > votes[i].count
  {
  }

  lemma {:induction false} FirstIsLowest(r: seq<Lockout>, cap: nat)
    requires |r| > 0 && Tapered(r, cap)
    ensures forall i :: 0 <= i < |r[1..]| ==> r[1..][i].slot > r[0].slot
  {
  }

  /** Counts fall from at most 30 to one, so the tower is never deeper than 30. */
  lemma {:induction false} DepthBound(s: Stack)
    requires WellFormed(s)
    ensures |s.votes| <= MAX_LOCKOUT_HISTORY - 1
  {
    hide Pow2;
    if |s.votes| > 0 {
      CountAtLeast(s.votes, MAX_LOCKOUT_HISTORY - 1, 0);
    }
  }

  lemma {:induction false} CountAtLeast(votes: seq<Lockout>, cap: nat, i: nat)
    requires Tapered(votes, cap) && i < |votes|
    ensures votes[i].count >= |votes| - i
    decreases |votes| - i
  {
    hide Pow2;
    if i + 1 == |votes| {
    } else {
      CountAtLeast(votes, cap, i + 1);
    }
  }

  // ---------------------------------------------------------------------------------
  // The source's filter, check and drain agree with the stack

  /** Splits the list into the lockouts still active at a slot and the expired ones; on a
      nested tower the expired ones are a suffix, so the split is the pop. */
  method SplitExpired(votes: seq<Lockout>, slot: U64) returns (kept: seq<Lockout>, expired: seq<Lockout>)
    requires Nested(votes)
    ensures kept == PopExpired(votes, slot) && expired == votes[|kept|..]
  {
    hide Pow2, LockedOutAt, PopExpired, Tapered;
    kept, expired := [], [];
    ghost var k := |PopExpired(votes, slot)|;
    for i := 0 to |votes|
      invariant kept == votes[..if i < k then i else k]
      invariant expired == votes[if i < k then i else k..i]
    {
      ActiveIsKept(votes, slot, i);
      if !LockedOutAt(votes[i], slot) {
        expired := expired + [votes[i]];
      } else {
        kept := kept + [votes[i]];
      }
    }
  }

  lemma {:induction false} ActiveIsKept(votes: seq<Lockout>, slot: U64, i: nat)
    requires Nested(votes) && i < |votes|
    ensures LockedOutAt(votes[i], slot) <==> i < |PopExpired(votes, slot)|
  {
    hide Pow2, PopExpired;
    if i < |PopExpired(votes, slot)| {
      KeptAreLocked(votes, slot, i);
      LockoutSpan(votes[i], slot);
    } else {
      PoppedAreExpired(votes, slot, i);
    }
  }

  /** Bumps every lockout but the top one. */
  method BumpBelowTop(votes: seq<Lockout>) returns (r: seq<Lockout>)
    requires |votes| > 0
    ensures r == Bump(votes[..|votes| - 1]) + [votes[|votes| - 1]]
  {
    r := votes;
    for i := 0 to |votes| - 1
      invariant |r| == |votes|
      invariant forall j :: 0 <= j < i ==> r[j] == Lockout(votes[j].slot, votes[j].count + 1)
      invariant forall j :: i <= j < |votes| ==> r[j] == votes[j]
    {
      r := r[i := Lockout(r[i].slot, r[i].count + 1)];
    }
  }

  /** A lockout at or above a slot is always active at it, so the lockout check refuses a
      vote exactly when some lockout is that high. */
  lemma {:induction false} HighIsLocked(l: Lockout, slot: U64)
    requires slot <= l.slot
    ensures LockedOutAt(l, slot)
  {
  }

  class Tower {
    var votes: seq<Lockout>
    var rootSlot: Option<nat>

    ghost function State(): Stack
      reads this
    {
      Stack(votes, rootSlot)
    }

    ghost predicate Valid()
      reads this
    {
      WellFormed(State())
    }

    constructor ()
      ensures Valid() && State() == Stack([], None)
    {
      votes, rootSlot := [], None;
    }

    /** The first lockout a vote would violate, if any. */
    method CheckVoteLockout(slot: U64) returns (e: Option<VoteError>)
      ensures e.None? <==> forall i :: 0 <= i < |votes| ==> votes[i].slot < slot
      ensures e.Some? ==>
                exists i :: 0 <= i < |votes| && votes[i].slot >= slot
                            && e.value == LockoutViolation(slot, votes[i].slot)
                            && forall j :: 0 <= j < i ==> votes[j].slot < slot
    {
      for i := 0 to |votes|
        invariant forall j :: 0 <= j < i ==> votes[j].slot < slot
      {
        if LockedOutAt(votes[i], slot) && slot <= votes[i].slot {
          return Some(LockoutViolation(slot, votes[i].slot));
        }
        if slot <= votes[i].slot { HighIsLocked(votes[i], slot); }
      }
      e := None;
    }

    /** Processes the last slot of a vote.  It is accepted exactly above the root and the
        last vote; then the tower is the stack after the push, at most one slot is rooted,
        and the expired lockouts are the ones popped.  A refused vote changes nothing. */
    method ProcessVote(slots: seq<U64>) returns (r: Result<VoteResult, VoteError>)
      requires Valid()
      modifies this
      ensures Valid()
      ensures r.Ok? <==> |slots| > 0 && Accepts(old(State()), slots[|slots| - 1])
      ensures r.Err? ==> State() == old(State())
      ensures r.Ok? ==> var slot := slots[|slots| - 1];
                && State() == Push(old(State()), slot) && AfterVote(old(State()), slot, State())
                && r.value.expired == old(votes)[|PopExpired(old(votes), slot)|..]
                && ExpiredAt(old(votes), slot, r.value.expired)
                && r.value.newRoots == if rootSlot == old(rootSlot) then [] else [rootSlot.value]
      ensures r == Err(EmptyVoteSlots) <==> slots == []
      ensures r.Err? && r.error.VoteTooOld? <==> |slots| > 0 && rootSlot.Some? && slots[|slots| - 1] <= rootSlot.value
      ensures r.Err? && r.error.VoteTooOld? ==> r.error == VoteTooOld(slots[|slots| - 1], rootSlot.value)
      ensures r.Err? && r.error.LockoutViolation? ==>
                exists i :: 0 <= i < |votes| && votes[i].slot >= slots[|slots| - 1]
                            && r.error == LockoutViolation(slots[|slots| - 1], votes[i].slot)
                            && forall j :: 0 <= j < i ==> votes[j].slot < slots[|slots| - 1]
    {
      if |slots| == 0 {
        return Err(EmptyVoteSlots);
      }
      var slot := slots[|slots| - 1];
      if rootSlot.Some? && slot <= rootSlot.value {
        return Err(VoteTooOld(slot, rootSlot.value));
      }
      var violation := CheckVoteLockout(slot);
      TopIsHighest(votes);
      if violation.Some? {
        return Err(violation.value);
      }
      PushKeepsWellFormed(State(), slot);
      PushIsAfterVote(State(), slot);
      ExpiredAre(votes, slot);
      hide PopExpired, Push, AfterVote, ExpiredAt;
      var result := RecordVote(slot);
      r := Ok(result);
    }

    method RecordVote(slot: U64) returns (result: VoteResult)
      requires Valid() && Accepts(State(), slot)
      modifies this
      ensures State() == Push(old(State()), slot)
      ensures result.expired == old(votes)[|PopExpired(old(votes), slot)|..]
      ensures result.newRoots == if rootSlot == old(rootSlot) then [] else [rootSlot.value]
    {
      hide LockedOutAt, Pow2, Tapered, PopExpired, Bump;
      BumpedTapers(votes, slot);
      PushKeepsWellFormed(State(), slot);
      var kept, expired := SplitExpired(votes, slot);
      votes := kept + [Lockout(slot, 1)];
      assert votes[..|votes| - 1] == kept;
      votes := BumpBelowTop(votes);
      var deep := DeepPrefix(votes);
      var rooted := Slots(votes[..deep]);
      if deep > 0 {
        rootSlot := Some(rooted[deep - 1]);
      }
      votes := votes[deep..];
      result := VoteResult(rooted, expired);
    }
  }

  /** `expired` are the lockouts that do not last to a slot. */
  ghost predicate ExpiredAt(votes: seq<Lockout>, slot: nat, expired: seq<Lockout>) {
    forall l :: l in expired <==> l in votes && !Lasts(l, slot)
  }

  lemma {:induction false} ExpiredAre(votes: seq<Lockout>, slot: U64)
    requires Nested(votes)
    ensures ExpiredAt(votes, slot, votes[|PopExpired(votes, slot)|..])
  {
    hide Lasts, PopExpired, Tapered;
    var k := |PopExpired(votes, slot)|;
    forall l ensures l in votes[k..] <==> l in votes && !Lasts(l, slot) {
      if l in votes {
        var i :| 0 <= i < |votes| && votes[i] == l;
        BumpedIs(votes, slot, i);
        if i >= k { assert votes[k..][i - k] == l; }
      }
      if l in votes[k..] {
        var i :| 0 <= i < |votes[k..]| && votes[k..][i] == l;
        BumpedIs(votes, slot, i + k);
      }
    }
  }

  lemma {:induction false} TopIsHighest(votes: seq<Lockout>)
    requires Nested(votes)
    ensures forall i :: 0 <= i < |votes| ==> votes[i].slot <= votes[|votes| - 1].slot
  {
  }

  function Slots(votes: seq<Lockout>): (r: seq<nat>)
    ensures |r| == |votes| && forall i :: 0 <= i < |r| ==> r[i] == votes[i].slot
  {
    seq(|votes|, i requires 0 <= i < |votes| => votes[i].slot)
  }

  /** How many lockouts from the bottom have reached the maximum depth: at most one. */
  method DeepPrefix(votes: seq<Lockout>) returns (n: nat)
    requires |votes| > 0 && Tapered(votes, MAX_LOCKOUT_HISTORY)
    ensures n == if votes[0].count >= MAX_LOCKOUT_HISTORY then 1 else 0
  {
    hide Pow2;
    n := 0;
    while n < |votes| && votes[n].count >= MAX_LOCKOUT_HISTORY
      invariant n <= |votes|
      invariant n <= 1 && (n == 1 ==> votes[0].count >= MAX_LOCKOUT_HISTORY)
    {
      n := n + 1;
    }
  }

  // ---------------------------------------------------------------------------------
  // Every run

  function Step(s: Stack, slot: U64): (r: Stack) {
    if Accepts(s, slot) then Push(s, slot) else s
  }

  /** The tower after the first `n` votes of a list, starting empty. */
  function Run(slots: seq<U64>, n: nat): (r: Stack)
    requires n <= |slots|
  {
    if n == 0 then Stack([], None) else Step(Run(slots, n - 1), slots[n - 1])
  }

  lemma {:induction false} EmptyWellFormed()
    ensures WellFormed(Stack([], None))
  {
  }

  /** The tower after `n` votes on consecutive slots from `s` on: the last 30 of them, counting
      down to one, above the root they have confirmed 31 times. */
  ghost predicate Steady(t: Stack, s: nat, n: nat) {
    var lo := if n <= 30 then 0 else n - 30;
    && |t.votes| == n - lo
    && (forall i :: 0 <= i < |t.votes| ==> t.votes[i].slot == s + lo + i && t.votes[i].count == n - lo - i)
    && t.root == if n <= 30 then None else Some(s + n - 31)
  }

  lemma {:induction false} SteadyStep(t: Stack, s: nat, n: nat)
    requires Steady(t, s, n) && s + n <= U64_MAX
    ensures Accepts(t, s + n) && Steady(Push(t, s + n), s, n + 1)
  {
    var slot: U64 := s + n;
    if |t.votes| > 0 {
      var top := t.votes[|t.votes| - 1];
      assert LockedOutAt(top, slot) by { assert Pow2(1) == 2 * Pow2(0); }
    }
    assert PopExpired(t.votes, slot) == t.votes;
    hide LockedOutAt, PopExpired;
    var bumped := Bump(t.votes) + [Lockout(slot, 1)];
    assert bumped[0].count == |bumped|;
  }

  /** Consecutive votes keep every lockout, and from the 31st on each roots one slot. */
  lemma {:induction false} ConsecutiveVotes(slots: seq<U64>, s: nat, n: nat)
    requires n <= |slots| && forall i :: 0 <= i < n ==> slots[i] == s + i
    ensures Steady(Run(slots, n), s, n)
  {
    hide Push, Accepts, Steady;
    if n == 0 {
      NothingVoted(s);
    } else {
      ConsecutiveVotes(slots, s, n - 1);
      assert slots[n - 1] == s + (n - 1);
      SteadyStep(Run(slots, n - 1), s, n - 1);
    }
  }

  lemma {:induction false} NothingVoted(s: nat)
    ensures Steady(Stack([], None), s, 0)
  {
  }

  /** Above every slot voted on before. */
  ghost predicate IsRecord(slots: seq<U64>, n: nat)
    requires n < |slots|
  {
    forall m :: 0 <= m < n ==> slots[m] < slots[n]
  }

  /** After any votes the top of the tower is the highest slot voted on so far. */
  lemma {:induction false} RunInvariant(slots: seq<U64>, n: nat)
    requires n <= |slots|
    ensures var s := Run(slots, n);
            && WellFormed(s) && |s.votes| < MAX_LOCKOUT_HISTORY
            && (n == 0 ==> s.votes == [] && s.root.None?)
            && (n > 0 ==> |s.votes| > 0 && exists m :: 0 <= m < n && slots[m] == s.votes[|s.votes| - 1].slot)
            && (forall m :: 0 <= m < n ==> slots[m] <= s.votes[|s.votes| - 1].slot)
            && (s.root.Some? ==> s.root.value < s.votes[|s.votes| - 1].slot)
  {
    hide Tapered, Push;
    EmptyWellFormed();
    var s := Run(slots, n);
    if n > 0 {
      RunInvariant(slots, n - 1);
      var prior, slot := Run(slots, n - 1), slots[n - 1];
      if Accepts(prior, slot) {
        PushKeepsWellFormed(prior, slot);
      } else {
        assert forall m :: 0 <= m < n - 1 ==> slots[m] <= prior.votes[|prior.votes| - 1].slot;
      }
    }
    DepthBound(s);
  }

  /** A vote is accepted exactly when it is above every slot voted on before, accepted or
      not: the lockouts never refuse more than that. */
  lemma {:induction false} AcceptedAreRecords(slots: seq<U64>, n: nat)
    requires n < |slots|
    ensures Accepts(Run(slots, n), slots[n]) <==> IsRecord(slots, n)
  {
    hide Run;
    RunInvariant(slots, n);
  }

  /** Once set, the root only rises. */
  lemma {:induction false} RootRises(slots: seq<U64>, m: nat, n: nat)
    requires m <= n <= |slots|
    ensures Run(slots, m).root.Some? ==>
              Run(slots, n).root.Some? && Run(slots, m).root.value <= Run(slots, n).root.value
  {
    hide Push, WellFormed;
    if m == n {
    } else {
      RootRises(slots, m, n - 1);
      RunInvariant(slots, n - 1);
      if Accepts(Run(slots, n - 1), slots[n - 1]) {
        PushKeepsWellFormed(Run(slots, n - 1), slots[n - 1]);
      }
    }
  }

  ghost predicate Ascending(roots: seq<nat>) {
    forall i, j :: 0 <= i < j < |roots| ==> roots[i] < roots[j]
  }

  /** The slots rooted so far ascend to the present root. */
  ghost predicate AscendTo(roots: seq<nat>, root: Option<nat>) {
    Ascending(roots) && if root.None? then roots == [] else |roots| > 0 && roots[|roots| - 1] == root.value
  }

  lemma {:induction false} AscendOn(roots: seq<nat>, was: Option<nat>, now: Option<nat>, added: seq<nat>)
    requires AscendTo(roots, was) && (was.Some? ==> now.Some? && was.value <= now.value)
    requires added == if now == was then [] else [now.value]
    ensures AscendTo(roots + added, now)
  {
    assert roots + [] == roots;
  }

  /** The next vote of a list, and what it roots. */
  method VoteNext(tower: Tower, slots: seq<U64>, n: nat) returns (accepted: bool, rooted: seq<nat>)
    requires n < |slots| && tower.Valid() && tower.State() == Run(slots, n)
    modifies tower
    ensures tower.Valid() && tower.State() == Run(slots, n + 1) && (accepted <==> IsRecord(slots, n))
    ensures rooted == if tower.rootSlot == old(tower.rootSlot) then [] else [tower.rootSlot.value]
    ensures old(tower.rootSlot).Some? ==>
              tower.rootSlot.Some? && old(tower.rootSlot).value <= tower.rootSlot.value
  {
    hide Accepts, Push, WellFormed, PopExpired, IsRecord, AfterVote, ExpiredAt, LockedOutAt;
    AcceptedAreRecords(slots, n);
    RootRises(slots, n, n + 1);
    var r := tower.ProcessVote([slots[n]]);
    accepted := r.Ok?;
    rooted := if r.Ok? then r.value.newRoots else [];
  }

  /** Feeds single-slot votes to a fresh tower and reports which were accepted. */
  method VoteAll(slots: seq<U64>) returns (accepted: seq<bool>, roots: seq<nat>)
    ensures |accepted| == |slots|
    ensures forall n :: 0 <= n < |slots| ==> (accepted[n] <==> IsRecord(slots, n))
    ensures Ascending(roots)
  {
    hide Push, WellFormed, IsRecord;
    var tower := new Tower();
    accepted, roots := [], [];
    assert AscendTo(roots, tower.rootSlot);
    hide AscendTo;
    for n := 0 to |slots|
      invariant fresh(tower) && tower.Valid() && tower.State() == Run(slots, n)
      invariant |accepted| == n
      invariant forall k :: 0 <= k < n ==> (accepted[k] <==> IsRecord(slots, k))
      invariant AscendTo(roots, tower.rootSlot)
    {
      ghost var was := tower.rootSlot;
      var ok, rooted := VoteNext(tower, slots, n);
      accepted := accepted + [ok];
      AscendOn(roots, was, tower.rootSlot, rooted);
      roots := roots + rooted;
    }
    Ascended(roots, tower.rootSlot);
  }

  lemma {:induction false} Ascended(roots: seq<nat>, root: Option<nat>)
    requires AscendTo(roots, root)
    ensures Ascending(roots)
  {
  }
}
