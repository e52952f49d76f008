/** The greedy scheduler (runtime/src/scheduler.rs): cuts a transaction list into batches
    in which no transaction writes an account another one reads or writes. */
module Scheduler {
  import opened Crypto
  import opened Messages
  import opened Transactions

  ghost function WriteSet(msg: Message): (r: set<Address>) {
    set i | 0 <= i < |msg.accountKeys| && msg.IsWritable(i) :: msg.accountKeys[i]
  }

  ghost function ReadSet(msg: Message): (r: set<Address>) {
    set i | 0 <= i < |msg.accountKeys| && !msg.IsWritable(i) :: msg.accountKeys[i]
  }

  ghost predicate Conflict(a: Message, b: Message) {
    WriteSet(a) * (WriteSet(b) + ReadSet(b)) != {} || ReadSet(a) * WriteSet(b) != {}
  }

  function Range(lo: nat, hi: nat): (r: seq<nat>)
    requires lo <= hi
    ensures |r| == hi - lo && forall t :: 0 <= t < |r| ==> r[t] == lo + t
  {
    seq(hi - lo, t requires 0 <= t < hi - lo => lo + t)
  }

  function Concat(batches: seq<seq<nat>>): (r: seq<nat>) {
    if |batches| == 0 then [] else Concat(batches[..|batches| - 1]) + batches[|batches| - 1]
  }

  ghost predicate ConflictFree(txs: seq<Transaction>, batch: seq<nat>) {
    && (forall t :: 0 <= t < |batch| ==> batch[t] < |txs|)
    && forall s, t :: 0 <= s < t < |batch| ==> !Conflict(txs[batch[t]].message, txs[batch[s]].message)
  }

  /** Batch `b + 1` had to be started: its first transaction conflicts with batch `b`. */
  ghost predicate Forced(txs: seq<Transaction>, batches: seq<seq<nat>>, b: nat)
    requires b + 1 < |batches|
  {
    && |batches[b + 1]| > 0 && batches[b + 1][0] < |txs|
    && exists s :: 0 <= s < |batches[b]| && batches[b][s] < |txs|
                   && Conflict(txs[batches[b + 1][0]].message, txs[batches[b][s]].message)
  }

  /** The in-order partition of the first `n` transactions into non-empty conflict-free
      runs, each as long as it can be. */
  ghost predicate Schedules(txs: seq<Transaction>, batches: seq<seq<nat>>, n: nat) {
    && n <= |txs|
    && Concat(batches) == Range(0, n)
    && (forall b :: 0 <= b < |batches| ==> |batches[b]| > 0 && ConflictFree(txs, batches[b]))
    && (forall b :: 0 <= b < |batches| - 1 ==> Forced(txs, batches, b))
  }

  // ---------------------------------------------------------------------------------

  method ExtractAccessSet(msg: Message) returns (writable: seq<Address>, readable: seq<Address>)
    ensures forall k :: k in writable <==> k in WriteSet(msg)
    ensures forall k :: k in readable <==> k in ReadSet(msg)
  {
    writable, readable := [], [];
    for i := 0 to |msg.accountKeys|
      invariant forall k :: k in writable <==> exists t :: 0 <= t < i && msg.IsWritable(t) && msg.accountKeys[t] == k
      invariant forall k :: k in readable <==> exists t :: 0 <= t < i && !msg.IsWritable(t) && msg.accountKeys[t] == k
    {
      if msg.IsWritable(i) {
        writable := writable + [msg.accountKeys[i]];
      } else {
        readable := readable + [msg.accountKeys[i]];
      }
    }
  }

  /** Keys locked by the transactions of a batch. */
  ghost predicate Locks(txs: seq<Transaction>, batch: seq<nat>, written: set<Address>, read: set<Address>) {
    && (forall t :: 0 <= t < |batch| ==> batch[t] < |txs|)
    && (forall k :: k in written <==> exists t :: 0 <= t < |batch| && k in WriteSet(txs[batch[t]].message))
    && (forall k :: k in read <==> exists t :: 0 <= t < |batch| && k in ReadSet(txs[batch[t]].message))
  }

  lemma {:induction false} LocksExtend(txs: seq<Transaction>, batch: seq<nat>, written: set<Address>,
      read: set<Address>, i: nat)
    requires Locks(txs, batch, written, read) && i < |txs|
    ensures Locks(txs, batch + [i], written + WriteSet(txs[i].message), read + ReadSet(txs[i].message))
  {
    var longer := batch + [i];
    assert longer[|batch|] == i && forall t :: 0 <= t < |batch| ==> longer[t] == batch[t];
  }

  /** The lock test sees exactly the conflicts with members of the batch. */
  lemma {:induction false} LockTest(txs: seq<Transaction>, batch: seq<nat>, written: set<Address>, read: set<Address>,
      i: nat)
    requires Locks(txs, batch, written, read) && i < |txs|
    ensures var msg := txs[i].message;
            WriteSet(msg) * (written + read) != {} || ReadSet(msg) * written != {} <==>
            exists s :: 0 <= s < |batch| && Conflict(msg, txs[batch[s]].message)
  {
    var msg := txs[i].message;
    if k :| k in WriteSet(msg) && k in written + read {
      if k in written {
        var t :| 0 <= t < |batch| && k in WriteSet(txs[batch[t]].message);
        assert k in WriteSet(msg) * (WriteSet(txs[batch[t]].message) + ReadSet(txs[batch[t]].message));
      } else {
        var t :| 0 <= t < |batch| && k in ReadSet(txs[batch[t]].message);
        assert k in WriteSet(msg) * (WriteSet(txs[batch[t]].message) + ReadSet(txs[batch[t]].message));
      }
    }
    if k :| k in ReadSet(msg) && k in written {
      var t :| 0 <= t < |batch| && k in WriteSet(txs[batch[t]].message);
      assert k in ReadSet(msg) * WriteSet(txs[batch[t]].message);
    }
    if s :| 0 <= s < |batch| && Conflict(msg, txs[batch[s]].message) {
      var other := txs[batch[s]].message;
      if WriteSet(msg) * (WriteSet(other) + ReadSet(other)) != {} {
        var k :| k in WriteSet(msg) * (WriteSet(other) + ReadSet(other));
        assert k in WriteSet(msg) * (written + read);
      } else {
        var k :| k in ReadSet(msg) * WriteSet(other);
        assert k in ReadSet(msg) * written;
      }
    }
  }

  lemma {:induction false} ScheduleExtend(txs: seq<Transaction>, batches: seq<seq<nat>>, batch: seq<nat>, i: nat)
    requires Schedules(txs, batches + [batch], i) && i < |txs|
    requires forall s :: 0 <= s < |batch| ==> !Conflict(txs[i].message, txs[batch[s]].message)
    ensures Schedules(txs, batches + [batch + [i]], i + 1)
  {
    var was, now, b := batches + [batch], batches + [batch + [i]], |batches|;
    assert was[..b] == batches && now[..b] == batches;
    assert Concat(now) == Concat(batches) + (batch + [i]) == Concat(was) + [i] == Range(0, i + 1);
    assert ConflictFree(txs, was[b]);
    forall c | 0 <= c < |now| - 1 ensures Forced(txs, now, c) {
      assert Forced(txs, was, c);
    }
    forall c | 0 <= c < |now| ensures |now[c]| > 0 && ConflictFree(txs, now[c]) {
      if c < b { assert now[c] == was[c]; }
    }
  }

  lemma {:induction false} ScheduleCut(txs: seq<Transaction>, batches: seq<seq<nat>>, batch: seq<nat>, i: nat)
    requires Schedules(txs, batches + [batch], i) && i < |txs|
    requires exists s :: 0 <= s < |batch| && Conflict(txs[i].message, txs[batch[s]].message)
    ensures Schedules(txs, batches + [batch] + [[i]], i + 1)
  {
    var was, now := batches + [batch], batches + [batch] + [[i]];
    assert now[..|was|] == was;
    assert was[|batches|] == batch;
    assert ConflictFree(txs, batch);
    var s :| 0 <= s < |batch| && Conflict(txs[i].message, txs[batch[s]].message);
    forall c | 0 <= c < |now| - 1 ensures Forced(txs, now, c) {
      if c < |was| - 1 { assert Forced(txs, was, c); } else { assert now[c][s] == batch[s]; }
    }
    forall c | 0 <= c < |now| ensures |now[c]| > 0 && ConflictFree(txs, now[c]) {
      if c < |was| { assert now[c] == was[c]; }
    }
  }

  method Schedule(txs: seq<Transaction>) returns (batches: seq<seq<nat>>)
    ensures Schedules(txs, batches, |txs|)
  {
    batches := [];
    if |txs| == 0 {
      return;
    }
    var batch: seq<nat> := [];
    var written: set<Address>, read: set<Address> := {}, {};
    for i := 0 to |txs|
      invariant Open(txs, batches, batch, written, read, i)
    {
      var w, r := ExtractAccessSet(txs[i].message);
      var ws, rs := set k | k in w, set k | k in r;
      Round(txs, batches, batch, written, read, i, ws, rs);
      if ws * (written + read) != {} || rs * written != {} {
        batches := batches + [batch];
        batch, written, read := [], {}, {};
      }
      batch, written, read := batch + [i], written + ws, read + rs;
    }
    if |batch| > 0 {
      batches := batches + [batch];
    }
  }

  /** The state of the loop: what is scheduled so far, and the locks of the open batch. */
  ghost predicate Open(txs: seq<Transaction>, batches: seq<seq<nat>>, batch: seq<nat>, written: set<Address>,
      read: set<Address>, i: nat)
  {
    InProgress(txs, batches, batch, i) && Locks(txs, batch, written, read)
  }

  lemma {:induction false} Round(txs: seq<Transaction>, batches: seq<seq<nat>>, batch: seq<nat>, written: set<Address>,
      read: set<Address>,
              i: nat, ws: set<Address>, rs: set<Address>)
    requires i < |txs| && Open(txs, batches, batch, written, read, i)
    requires ws == WriteSet(txs[i].message) && rs == ReadSet(txs[i].message)
    ensures if ws * (written + read) != {} || rs * written != {}
            then Open(txs, batches + [batch], [] + [i], {} + ws, {} + rs, i + 1)
            else Open(txs, batches, batch + [i], written + ws, read + rs, i + 1)
  {
    LockTest(txs, batch, written, read, i);
    Step(txs, batches, batch, i, ws * (written + read) != {} || rs * written != {});
    LocksExtend(txs, batch, written, read, i);
    LocksExtend(txs, [], {}, {}, i);
  }

  /** The flushed batches and the open one schedule the transactions seen so far. */
  ghost predicate InProgress(txs: seq<Transaction>, batches: seq<seq<nat>>, batch: seq<nat>, i: nat) {
    if i == 0 then batches == [] && batch == [] else |batch| > 0 && Schedules(txs, batches + [batch], i)
  }

  /** One round of the loop: the transaction joins the open batch or starts the next. */
  lemma {:induction false} Step(txs: seq<Transaction>, batches: seq<seq<nat>>, batch: seq<nat>, i: nat, conflicts: bool)
    requires i < |txs|
    requires InProgress(txs, batches, batch, i)
    requires forall s :: 0 <= s < |batch| ==> batch[s] < |txs|
    requires conflicts <==> exists s :: 0 <= s < |batch| && Conflict(txs[i].message, txs[batch[s]].message)
    ensures if conflicts then InProgress(txs, batches + [batch], [] + [i], i + 1)
            else InProgress(txs, batches, batch + [i], i + 1)
  {
    assert [] + [i] == [i];
    if conflicts {
      ScheduleCut(txs, batches, batch, i);
    } else if i > 0 {
      ScheduleExtend(txs, batches, batch, i);
    } else {
      FirstBatch(txs);
      assert batch + [i] == [0];
    }
  }

  lemma {:induction false} FirstBatch(txs: seq<Transaction>)
    requires |txs| > 0
    ensures Schedules(txs, [] + [[0]], 1)
  {
    var batches: seq<seq<nat>> := [[0]];
    assert batches[..0] == [];
    assert Concat(batches) == [0] == Range(0, 1);
    assert [] + batches == batches;
  }

  // ---------------------------------------------------------------------------------
  // There is only one such schedule

  lemma {:induction false} ConcatPrefix(batches: seq<seq<nat>>, k: nat)
    requires k <= |batches|
    ensures Concat(batches[..k]) <= Concat(batches)
    decreases |batches|
  {
    var n := |batches| - 1;
    if k <= n {
      ConcatPrefix(batches[..n], k);
      assert batches[..n][..k] == batches[..k];
    } else {
      assert batches[..k] == batches;
    }
  }

  /** Batch `k` sits right after the batches before it. */
  lemma {:induction false} BatchOffset(txs: seq<Transaction>, batches: seq<seq<nat>>, n: nat, k: nat)
    requires Schedules(txs, batches, n) && k < |batches|
    ensures var m := |Concat(batches[..k])|;
            && m + |batches[k]| <= n
            && (forall t :: 0 <= t < |batches[k]| ==> batches[k][t] == m + t)
            && |Concat(batches[..k + 1])| == m + |batches[k]|
            && (k + 1 == |batches| ==> m + |batches[k]| == n)
  {
    var m := |Concat(batches[..k])|;
    assert batches[..k + 1][..k] == batches[..k];
    ConcatPrefix(batches, k + 1);
    if k + 1 == |batches| { assert batches[..k + 1] == batches; }
    forall t | 0 <= t < |batches[k]| ensures batches[k][t] == m + t {
      assert Concat(batches[..k + 1])[m + t] == batches[k][t] == Concat(batches)[m + t];
    }
  }

  /** The transaction after batch `k` conflicts with one in it. */
  lemma {:induction false} NextConflicts(txs: seq<Transaction>, batches: seq<seq<nat>>, n: nat, k: nat) returns (s: nat)
    requires Schedules(txs, batches, n) && k < |batches| && |Concat(batches[..k])| + |batches[k]| < n
    ensures var m := |Concat(batches[..k])|;
            s < |batches[k]| && Conflict(txs[m + |batches[k]|].message, txs[m + s].message)
  {
    BatchOffset(txs, batches, n, k);
    BatchOffset(txs, batches, n, k + 1);
    assert Forced(txs, batches, k);
    s :| 0 <= s < |batches[k]| && batches[k][s] < |txs| &&
        Conflict(txs[batches[k + 1][0]].message, txs[batches[k][s]].message);
  }

  lemma {:induction false} InsideIsFree(txs: seq<Transaction>, batches: seq<seq<nat>>, n: nat, k: nat, s: nat, t: nat)
    requires Schedules(txs, batches, n) && k < |batches| && s < t < |batches[k]|
    ensures var m := |Concat(batches[..k])|; m + t < |txs| && !Conflict(txs[m + t].message, txs[m + s].message)
  {
    BatchOffset(txs, batches, n, k);
    assert ConflictFree(txs, batches[k]);
    assert !Conflict(txs[batches[k][t]].message, txs[batches[k][s]].message);
  }

  lemma {:induction false} NotShorter(txs: seq<Transaction>, a: seq<seq<nat>>, b: seq<seq<nat>>, n: nat, k: nat)
    requires Schedules(txs, a, n) && Schedules(txs, b, n)
    requires k < |a| && k < |b| && a[..k] == b[..k]
    ensures |a[k]| >= |b[k]|
  {
    hide Conflict;
    BatchOffset(txs, b, n, k);
    if |a[k]| < |b[k]| {
      var s := NextConflicts(txs, a, n, k);
      InsideIsFree(txs, b, n, k, s, |a[k]|);
    }
  }

  lemma {:induction false} SamePrefix(txs: seq<Transaction>, a: seq<seq<nat>>, b: seq<seq<nat>>, n: nat, k: nat)
    requires Schedules(txs, a, n) && Schedules(txs, b, n) && k <= |a| && k <= |b|
    ensures a[..k] == b[..k]
  {
    if k == 0 {
    } else {
      SamePrefix(txs, a, b, n, k - 1);
      NotShorter(txs, a, b, n, k - 1);
      NotShorter(txs, b, a, n, k - 1);
      BatchOffset(txs, a, n, k - 1);
      BatchOffset(txs, b, n, k - 1);
      assert a[k - 1] == b[k - 1];
      assert a[..k] == a[..k - 1] + [a[k - 1]] && b[..k] == b[..k - 1] + [b[k - 1]];
    }
  }

  /** The greedy schedule is determined by the transactions. */
  lemma {:induction false} ScheduleUnique(txs: seq<Transaction>, a: seq<seq<nat>>, b: seq<seq<nat>>, n: nat)
    requires Schedules(txs, a, n) && Schedules(txs, b, n)
    ensures a == b
  {
    var k := if |a| <= |b| then |a| else |b|;
    SamePrefix(txs, a, b, n, k);
    assert a[..|a|] == a && b[..|b|] == b;
    if |a| < |b| { BatchOffset(txs, b, n, k); }
    if |b| < |a| { BatchOffset(txs, a, n, k); }
  }
}
