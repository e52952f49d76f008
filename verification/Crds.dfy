/** The cluster's replicated data store (gossip/src/crds.rs, gossip/src/crds_value.rs): one value
    per label, newest wallclock wins, and an index by insertion order for delta queries. */
module CrdsTables {
  import opened Crypto
  import opened Ordered

  const MAX_CRDS_ENTRIES: nat := 100_000
  const MAX_EPOCH_SLOTS_PER_ENTRY: nat := 512

  datatype Label =
    | ContactInfo(identity: Address)
    | Vote(from: Address, slot: U64)
    | EpochSlots(from: Address)
    | LowestSlot(from: Address)
    | SlashProof(from: Address, validator: Address, slot: U64)

  /** A signed value; `body` stands for the fields the table does not look at. */
  datatype Value =
    | ContactInfoValue(identity: Address, wallclock: U64, body: seq<U8>)
    | VoteValue(from: Address, slot: U64, wallclock: U64, body: seq<U8>)
    | EpochSlotsValue(from: Address, slots: seq<U64>, wallclock: U64, body: seq<U8>)
    | LowestSlotValue(from: Address, wallclock: U64, body: seq<U8>)
    | SlashProofValue(from: Address, validator: Address, slot: U64, wallclock: U64, body: seq<U8>)

  function LabelOf(v: Value): (l: Label) {
    match v
    case ContactInfoValue(identity, _, _) => ContactInfo(identity)
    case VoteValue(from, slot, _, _) => Vote(from, slot)
    case EpochSlotsValue(from, _, _, _) => EpochSlots(from)
    case LowestSlotValue(from, _, _) => LowestSlot(from)
    case SlashProofValue(from, validator, slot, _, _) => SlashProof(from, validator, slot)
  }

  /** The node a value comes from. */
  function Origin(v: Value): (a: Address) {
    if v.ContactInfoValue? then v.identity else v.from
  }

  /** Two values compete for one place exactly if they are of one kind and one node, and, for
      votes, on one slot, and, for slash proofs, against one validator on one slot. */
  lemma {:induction false} SharedLabel(v: Value, w: Value)
    ensures LabelOf(v) == LabelOf(w) <==>
              && Origin(v) == Origin(w)
              && (v.ContactInfoValue? <==> w.ContactInfoValue?) && (v.EpochSlotsValue? <==> w.EpochSlotsValue?)
              && (v.LowestSlotValue? <==> w.LowestSlotValue?)
              && (v.VoteValue? <==> w.VoteValue?) && (v.VoteValue? ==> v.slot == w.slot)
              && (v.SlashProofValue? <==> w.SlashProofValue?)
              && (v.SlashProofValue? ==> v.validator == w.validator && v.slot == w.slot)
  {
  }

  predicate Oversized(v: Value) {
    v.EpochSlotsValue? && |v.slots| > MAX_EPOCH_SLOTS_PER_ENTRY
  }

  datatype Entry = Entry(value: Value, order: nat)

  type Entries = map<Label, Entry>

  datatype GossipError = OversizedValue | StaleValue(valueWallclock: nat, existingWallclock: nat)

  // ---------------------------------------------------------------------------------
  // The index

  /** Entries sit under their own label, and the index is the exact inverse of their
      insertion orders. */
  ghost predicate Indexed(entries: Entries, index: map<nat, Label>, cursor: nat) {
    && (forall l :: l in entries ==>
          LabelOf(entries[l].value) == l && entries[l].order < cursor && entries[l].order in index &&
              index[entries[l].order] == l)
    && (forall o :: o in index ==> index[o] in entries && entries[index[o]].order == o)
  }

  lemma {:induction false} IndexPut(entries: Entries, index: map<nat, Label>, cursor: nat, v: Value)
    requires Indexed(entries, index, cursor)
    ensures var l := LabelOf(v);
            Indexed(entries[l := Entry(v, cursor)],
                (if l in entries then index - {entries[l].order} else index)[cursor := l], cursor + 1)
  {
  }

  lemma {:induction false} IndexDrop(entries: Entries, index: map<nat, Label>, cursor: nat, l: Label)
    requires Indexed(entries, index, cursor) && l in entries
    ensures Indexed(entries - {l}, index - {entries[l].order}, cursor)
  {
  }

  // ---------------------------------------------------------------------------------
  // Contents

  /** What the table says, orders aside. */
  ghost function Contents(entries: Entries): (c: map<Label, Value>) {
    map l | l in entries :: entries[l].value
  }

  /** A value replaces an older one under its label; oversized and stale values do nothing. */
  function Merge(c: map<Label, Value>, v: Value): (r: map<Label, Value>) {
    if Oversized(v) || (LabelOf(v) in c && c[LabelOf(v)].wallclock >= v.wallclock) then c else c[LabelOf(v) := v]
  }

  function MergeAll(c: map<Label, Value>, vs: seq<Value>, n: nat): (r: map<Label, Value>)
    requires n <= |vs|
  {
    if n == 0 then c else Merge(MergeAll(c, vs, n - 1), vs[n - 1])
  }

  /** `c` holds, for every label offered, the newest of the values offered. */
  ghost predicate Newest(vs: seq<Value>, n: nat, c: map<Label, Value>)
    requires n <= |vs|
  {
    && (forall l :: l in c ==> LabelOf(c[l]) == l && Offered(vs, n, c[l]))
    && (forall i :: 0 <= i < n && !Oversized(vs[i]) ==>
        LabelOf(vs[i]) in c && vs[i].wallclock <= c[LabelOf(vs[i])].wallclock)
  }

  ghost predicate Offered(vs: seq<Value>, n: nat, v: Value)
    requires n <= |vs|
  {
    exists i :: 0 <= i < n && vs[i] == v && !Oversized(v)
  }

  lemma {:induction false} OfferedMore(vs: seq<Value>, n: nat, v: Value)
    requires n < |vs|
    ensures Offered(vs, n, v) ==> Offered(vs, n + 1, v)
    ensures !Oversized(vs[n]) ==> Offered(vs, n + 1, vs[n])
  {
  }

  lemma {:induction false} MergeAllNewest(vs: seq<Value>, n: nat)
    requires n <= |vs|
    ensures Newest(vs, n, MergeAll(map[], vs, n))
  {
    if n == 0 {
    } else {
      MergeAllNewest(vs, n - 1);
      var before, after := MergeAll(map[], vs, n - 1), MergeAll(map[], vs, n);
      forall l | l in after ensures LabelOf(after[l]) == l && Offered(vs, n, after[l]) {
        OfferedMore(vs, n - 1, after[l]);
      }
    }
  }

  /** The value fits, and no fitting value offered under its label is newer. */
  ghost predicate IsNewest(vs: seq<Value>, v: Value) {
    v in vs && !Oversized(v)
    && forall w :: w in vs && !Oversized(w) && LabelOf(w) == LabelOf(v) ==> w.wallclock <= v.wallclock
  }

  /** No two different values are both newest under a label. */
  ghost predicate NoTies(vs: seq<Value>) {
    forall v, w :: IsNewest(vs, v) && IsNewest(vs, w) && LabelOf(v) == LabelOf(w) ==> v == w
  }

  /** Every order and repetition of the values leaves the same contents. */
  ghost predicate OrderFree(vs: seq<Value>) {
    forall ws: seq<Value> :: (forall v :: v in vs <==> v in ws) ==>
      MergeAll(map[], vs, |vs|) == MergeAll(map[], ws, |ws|)
  }

  /** A value that is newest and comes first stays. */
  lemma {:induction false} FirstStays(vs: seq<Value>, v: Value, n: nat)
    requires |vs| > 0 && vs[0] == v && IsNewest(vs, v) && 0 < n <= |vs|
    ensures var c := MergeAll(map[], vs, n);
            LabelOf(v) in c && c[LabelOf(v)] == v
  {
    if n == 1 {
      assert MergeAll(map[], vs, 0) == map[];
    } else {
      FirstStays(vs, v, n - 1);
      assert vs[n - 1] in vs;
    }
  }

  lemma {:induction false} FirstWins(vs: seq<Value>, v: Value)
    requires OrderFree(vs) && IsNewest(vs, v)
    ensures var c := MergeAll(map[], vs, |vs|);
            LabelOf(v) in c && c[LabelOf(v)] == v
  {
    var ws := [v] + vs;
    assert forall x :: x in vs <==> x in ws;
    FirstStays(ws, v, |ws|);
  }

  /** Nodes that receive the same values, in any order and with any repetitions, all end with
      the same contents exactly if no two different values tie for the newest of a label. */
  lemma {:induction false} ConvergesIff(vs: seq<Value>)
    ensures OrderFree(vs) <==> NoTies(vs)
  {
    hide MergeAll, IsNewest;
    if OrderFree(vs) {
      forall v, w | IsNewest(vs, v) && IsNewest(vs, w) && LabelOf(v) == LabelOf(w) ensures v == w {
        FirstWins(vs, v);
        FirstWins(vs, w);
      }
    }
    if NoTies(vs) {
      forall ws: seq<Value> | forall v :: v in vs <==> v in ws
        ensures MergeAll(map[], vs, |vs|) == MergeAll(map[], ws, |ws|)
      {
        Converges(vs, ws);
      }
    }
  }

  /** Two nodes that receive the same values in any order, with any repetitions, end with
      the same contents. */
  lemma {:induction false} Converges(vs: seq<Value>, ws: seq<Value>)
    requires NoTies(vs) && forall v :: v in vs <==> v in ws
    ensures MergeAll(map[], vs, |vs|) == MergeAll(map[], ws, |ws|)
  {
    var a, b := MergeAll(map[], vs, |vs|), MergeAll(map[], ws, |ws|);
    MergeAllNewest(vs, |vs|);
    MergeAllNewest(ws, |ws|);
    hide MergeAll;
    hide Newest, NoTies;
    forall l | l in a ensures l in b && a[l] == b[l] { SameValue(vs, a, ws, b, l); }
    forall l | l in b ensures l in a { Beaten(ws, b, vs, a, l); }
  }

  lemma {:induction false} SameValue(vs: seq<Value>, a: map<Label, Value>, ws: seq<Value>, b: map<Label, Value>,
      l: Label)
    requires Newest(vs, |vs|, a) && Newest(ws, |ws|, b) && l in a
    requires NoTies(vs) && forall v :: v in vs <==> v in ws
    ensures l in b && a[l] == b[l]
  {
    Beaten(vs, a, ws, b, l);
    Beaten(ws, b, vs, a, l);
    HeldIsNewest(vs, a, l);
    HeldIsNewest(ws, b, l);
    assert IsNewest(vs, b[l]);
  }

  lemma {:induction false} HeldIsNewest(vs: seq<Value>, a: map<Label, Value>, l: Label)
    requires Newest(vs, |vs|, a) && l in a
    ensures IsNewest(vs, a[l]) && LabelOf(a[l]) == l
  {
    assert Offered(vs, |vs|, a[l]);
    forall w | w in vs && !Oversized(w) && LabelOf(w) == l ensures w.wallclock <= a[l].wallclock {
      var i :| 0 <= i < |vs| && vs[i] == w;
    }
  }

  lemma {:induction false} Beaten(vs: seq<Value>, a: map<Label, Value>, ws: seq<Value>, b: map<Label, Value>, l: Label)
    requires Newest(vs, |vs|, a) && Newest(ws, |ws|, b) && l in a && forall v :: v in vs <==> v in ws
    ensures a[l] in vs && l in b && a[l].wallclock <= b[l].wallclock
  {
    assert Offered(vs, |vs|, a[l]);
    assert a[l] in ws;
    var i :| 0 <= i < |ws| && ws[i] == a[l];
  }

  // ---------------------------------------------------------------------------------
  // Deltas

  /** The orders a query from `cursor` visits. */
  ghost function Since(index: map<nat, Label>, cursor: nat): (r: set<nat>) {
    set o | o in index && o >= cursor
  }

  /** What changed since a copy was taken at cursor `c` is exactly what the orders from `c`
      on show; nothing else did. */
  ghost predicate Grown(was: Entries, c: nat, now: Entries) {
    && (forall l :: l in was ==> l in now)
    && (forall l :: l in now && now[l].order < c ==> l in was && was[l] == now[l])
  }

  lemma {:induction false} GrownStart(entries: Entries, index: map<nat, Label>, cursor: nat)
    requires Indexed(entries, index, cursor)
    ensures Grown(entries, cursor, entries)
  {
  }

  lemma {:induction false} GrownPut(was: Entries, c: nat, now: Entries, index: map<nat, Label>, cursor: nat, v: Value)
    requires Grown(was, c, now) && Indexed(now, index, cursor) && c <= cursor
    ensures Grown(was, c, now[LabelOf(v) := Entry(v, cursor)])
  {
  }

  /** `values` are the values behind the orders from `c` on, in order. */
  ghost predicate Lists(entries: Entries, index: map<nat, Label>, c: nat, orders: seq<nat>, values: seq<Value>) {
    && orders == SortedKeys(Since(index, c)) && |values| == |orders|
    && forall i :: 0 <= i < |values| ==>
         orders[i] in index && index[orders[i]] in entries && values[i] == entries[index[orders[i]]].value
  }

  /** A copy with values written over it, whatever it held under their labels. */
  function Overwrite(c: map<Label, Value>, values: seq<Value>, n: nat): (r: map<Label, Value>)
    requires n <= |values|
  {
    if n == 0 then c else Overwrite(c, values, n - 1)[LabelOf(values[n - 1]) := values[n - 1]]
  }

  ghost predicate DistinctLabels(values: seq<Value>) {
    forall i, j :: 0 <= i < j < |values| ==> LabelOf(values[i]) != LabelOf(values[j])
  }

  lemma {:induction false} OverwriteElsewhere(c: map<Label, Value>, values: seq<Value>, n: nat, l: Label)
    requires n <= |values| && forall i :: 0 <= i < n ==> LabelOf(values[i]) != l
    ensures l in Overwrite(c, values, n) <==> l in c
    ensures l in c ==> Overwrite(c, values, n)[l] == c[l]
  {
    if n == 0 {
    } else {
      OverwriteElsewhere(c, values, n - 1, l);
    }
  }

  lemma {:induction false} OverwriteAt(c: map<Label, Value>, values: seq<Value>, n: nat, i: nat)
    requires i < n <= |values| && DistinctLabels(values)
    ensures LabelOf(values[i]) in Overwrite(c, values, n) && Overwrite(c, values, n)[LabelOf(values[i])] == values[i]
    decreases n
  {
    if i == n - 1 {
    } else {
      OverwriteAt(c, values, n - 1, i);
      assert LabelOf(values[i]) != LabelOf(values[n - 1]);
    }
  }

  /** A listed value sits under its own label, at its own order. */
  lemma {:induction false} ListedAt(entries: Entries, index: map<nat, Label>, cursor: nat, c: nat, orders: seq<nat>,
      values: seq<Value>, i: nat)
    requires Indexed(entries, index, cursor) && Lists(entries, index, c, orders, values) && i < |values|
    ensures var l := LabelOf(values[i]);
            l in entries && entries[l].value == values[i] && entries[l].order == orders[i] && orders[i] >= c
  {
    assert orders[i] in orders;
  }

  lemma {:induction false} ListedDistinct(entries: Entries, index: map<nat, Label>, cursor: nat, c: nat,
      orders: seq<nat>, values: seq<Value>)
    requires Indexed(entries, index, cursor) && Lists(entries, index, c, orders, values)
    ensures DistinctLabels(values)
  {
    forall i, j | 0 <= i < j < |values| ensures LabelOf(values[i]) != LabelOf(values[j]) {
      ListedAt(entries, index, cursor, c, orders, values, i);
      ListedAt(entries, index, cursor, c, orders, values, j);
      assert orders[i] < orders[j];
    }
  }

  lemma {:induction false} ListedFrom(entries: Entries, index: map<nat, Label>, cursor: nat, c: nat, orders: seq<nat>,
      values: seq<Value>, l: Label)
    returns (i: nat)
    requires Indexed(entries, index, cursor) && Lists(entries, index, c, orders, values) && l in entries
    requires entries[l].order >= c
    ensures i < |values| && values[i] == entries[l].value && LabelOf(values[i]) == l
  {
    assert entries[l].order in orders;
    i :| 0 <= i < |orders| && orders[i] == entries[l].order;
  }

  /** Writing what a query from cursor `c` returns over a copy taken at `c` gives the present
      contents. */
  lemma {:induction false} DeltaSync(was: Entries, c: nat, now: Entries, index: map<nat, Label>, cursor: nat,
      orders: seq<nat>, values: seq<Value>)
    requires Grown(was, c, now) && Indexed(now, index, cursor) && Lists(now, index, c, orders, values)
    ensures Overwrite(Contents(was), values, |values|) == Contents(now)
  {
    hide Lists, Overwrite;
    var r := Overwrite(Contents(was), values, |values|);
    ListedDistinct(now, index, cursor, c, orders, values);
    forall l: Label ensures (l in r <==> l in now) && (l in now ==> r[l] == now[l].value) {
      DeltaSyncAt(was, c, now, index, cursor, orders, values, l);
    }
  }

  lemma {:induction false} DeltaSyncAt(was: Entries, c: nat, now: Entries, index: map<nat, Label>, cursor: nat,
      orders: seq<nat>, values: seq<Value>, l: Label)
    requires Grown(was, c, now) && Indexed(now, index, cursor) && Lists(now, index, c, orders, values)
    requires DistinctLabels(values)
    ensures var r := Overwrite(Contents(was), values, |values|);
            (l in r <==> l in now) && (l in now ==> r[l] == now[l].value)
  {
    hide Lists, Overwrite;
    if l in now && now[l].order >= c {
      var i := ListedFrom(now, index, cursor, c, orders, values, l);
      OverwriteAt(Contents(was), values, |values|, i);
    } else {
      forall i | 0 <= i < |values| ensures LabelOf(values[i]) != l {
        ListedAt(now, index, cursor, c, orders, values, i);
      }
      OverwriteElsewhere(Contents(was), values, |values|, l);
    }
  }

  class CrdsTable {
    var entries: Entries
    var cursor: nat
    var index: map<nat, Label>

    ghost predicate Valid()
      reads this
    {
      Indexed(entries, index, cursor) && |entries| <= MAX_CRDS_ENTRIES
    }

    constructor ()
      ensures Valid() && entries == map[] && cursor == 0
    {
      entries, cursor, index := map[], 0, map[];
    }

    /** Takes a value unless it is oversized or not newer than the one it would replace.  A
        new label in a full table first pushes out the oldest insertion. */
    method Insert(v: Value) returns (r: Result<Option<Value>, GossipError>)
      requires Valid()
      modifies this
      ensures Valid()
      ensures r == Err(OversizedValue) <==> Oversized(v)
      ensures r == Err(OversizedValue) <==> v.EpochSlotsValue? && |v.slots| > 512
      ensures r.Err? && r.error.StaleValue? <==>
                !Oversized(v) && LabelOf(v) in old(entries) && old(entries)[LabelOf(v)].value.wallclock >= v.wallclock
      ensures r.Err? && r.error.StaleValue? ==>
                r.error == StaleValue(v.wallclock, old(entries)[LabelOf(v)].value.wallclock)
      ensures r.Err? ==> unchanged(this)
      ensures r.Ok? ==>
                && cursor == old(cursor) + 1
                && r.value == (if LabelOf(v) in old(entries) then Some(old(entries)[LabelOf(v)].value) else None)
                && (LabelOf(v) in old(entries) || |old(entries)| < MAX_CRDS_ENTRIES ==>
                      entries == old(entries)[LabelOf(v) := Entry(v, old(cursor))])
                && (LabelOf(v) !in old(entries) && |old(entries)| >= MAX_CRDS_ENTRIES ==>
                      && old(index) != map[]
                      && var kept := old(entries) - {old(index)[Min(old(index).Keys)]};
                         entries == kept[LabelOf(v) := Entry(v, old(cursor))])
      ensures LabelOf(v) in old(entries) || |old(entries)| < MAX_CRDS_ENTRIES ==>
                Contents(entries) == Merge(Contents(old(entries)), v)
    {
      hide Indexed, Min;
      if v.EpochSlotsValue? && |v.slots| > MAX_EPOCH_SLOTS_PER_ENTRY {
        return Err(OversizedValue);
      }
      var key := LabelOf(v);
      if key !in entries && |entries| >= MAX_CRDS_ENTRIES {
        EvictOldest();
      }
      if key in entries {
        var existing := entries[key];
        if existing.value.wallclock >= v.wallclock {
          return Err(StaleValue(v.wallclock, existing.value.wallclock));
        }
        IndexPut(entries, index, cursor, v);
        PutSize(entries, key, Entry(v, cursor));
        ContentsPut(entries, v, cursor);
        index := (index - {existing.order})[cursor := key];
        entries := entries[key := Entry(v, cursor)];
        cursor := cursor + 1;
        r := Ok(Some(existing.value));
      } else {
        IndexPut(entries, index, cursor, v);
        PutSize(entries, key, Entry(v, cursor));
        ContentsPut(entries, v, cursor);
        index := index[cursor := key];
        entries := entries[key := Entry(v, cursor)];
        cursor := cursor + 1;
        r := Ok(None);
      }
    }

    /** Drops the entry with the lowest insertion order. */
    method EvictOldest()
      requires Valid() && |entries| > 0
      modifies `entries, `index
      ensures Valid() && old(index) != map[]
      ensures old(index)[Min(old(index).Keys)] in old(entries)
      ensures entries == old(entries) - {old(index)[Min(old(index).Keys)]} && |entries| == |old(entries)| - 1
    {
      hide Min;
      OccupiedIndex(entries, index, cursor);
      var order := Min(index.Keys);
      var key := index[order];
      IndexDrop(entries, index, cursor, key);
      assert (entries - {key}).Keys == entries.Keys - {key};
      entries := entries - {key};
      index := index - {order};
    }

    /** The values inserted from `cursor` on, in insertion order. */
    method ValuesSince(c: nat) returns (values: seq<Value>, ghost orders: seq<nat>)
      requires Valid()
      ensures Lists(entries, index, c, orders, values)
      ensures forall l :: l in entries && entries[l].order >= c ==> entries[l].value in values
    {
      hide SortedKeys, Min;
      var list := SortedKeys(set o | o in index && o >= c);
      orders := list;
      values := [];
      for i := 0 to |list|
        invariant |values| == i
        invariant forall k :: 0 <= k < i ==>
                  list[k] in index && index[list[k]] in entries && values[k] == entries[index[list[k]]].value
      {
        assert list[i] in list;
        values := values + [entries[index[list[i]]].value];
      }
      forall l | l in entries && entries[l].order >= c ensures entries[l].value in values {
        assert entries[l].order in list;
        var k :| 0 <= k < |list| && list[k] == entries[l].order;
        assert values[k] == entries[l].value;
      }
    }

    /** Removes exactly the entries with an earlier wallclock and counts them. */
    method PurgeOld(minWallclock: nat) returns (count: nat)
      requires Valid()
      modifies this
      ensures Valid() && cursor == old(cursor)
      ensures entries == map l | l in old(entries) && old(entries)[l].value.wallclock >= minWallclock :: old(entries)[l]
      ensures count == |old(entries)| - |entries|
    {
      hide Indexed, Purging;
      ghost var was := entries;
      var todo := set l | l in entries && entries[l].value.wallclock < minWallclock;
      count := |todo|;
      PurgeStart(was, minWallclock);
      while todo != {}
        invariant Valid() && cursor == old(cursor) && todo <= entries.Keys
        invariant Purging(was, entries, minWallclock, todo)
        invariant |entries| + count == |was| + |todo|
        decreases todo
      {
        var l :| l in todo;
        IndexDrop(entries, index, cursor, l);
        PurgeStep(was, entries, minWallclock, todo, l);
        todo := todo - {l};
        index := index - {entries[l].order};
        entries := entries - {l};
      }
      PurgeEnd(was, entries, minWallclock);
    }
  }

  /** `entries` is `was` without the old entries that are not in `todo`. */
  ghost predicate Purging(was: Entries, entries: Entries, min: nat, todo: set<Label>) {
    && (forall l :: l in entries ==> l in was && entries[l] == was[l] && (was[l].value.wallclock >= min || l in todo))
    && (forall l :: l in was && (was[l].value.wallclock >= min || l in todo) ==> l in entries)
    && (forall l :: l in todo ==> l in was && was[l].value.wallclock < min)
  }

  lemma {:induction false} PurgeStart(was: Entries, min: nat)
    ensures Purging(was, was, min, set l | l in was && was[l].value.wallclock < min)
  {
  }

  lemma {:induction false} PurgeStep(was: Entries, entries: Entries, min: nat, todo: set<Label>, l: Label)
    requires Purging(was, entries, min, todo) && l in todo
    ensures Purging(was, entries - {l}, min, todo - {l})
    ensures l in entries && |entries - {l}| == |entries| - 1 && todo - {l} <= (entries - {l}).Keys
  {
    assert (entries - {l}).Keys == entries.Keys - {l};
  }

  lemma {:induction false} PurgeEnd(was: Entries, entries: Entries, min: nat)
    requires Purging(was, entries, min, {})
    ensures entries == map l | l in was && was[l].value.wallclock >= min :: was[l]
  {
  }

  lemma {:induction false} OccupiedIndex(entries: Entries, index: map<nat, Label>, cursor: nat)
    requires Indexed(entries, index, cursor) && |entries| > 0
    ensures index.Keys != {} && index != map[]
  {
    assert entries.Keys != {};
    var l :| l in entries.Keys;
    assert entries[l].order in index.Keys;
  }

  lemma {:induction false} PutSize(entries: Entries, l: Label, e: Entry)
    ensures |entries[l := e]| == |entries| + if l in entries then 0 else 1
  {
    assert entries[l := e].Keys == entries.Keys + {l};
  }

  lemma {:induction false} ContentsPut(entries: Entries, v: Value, order: nat)
    ensures Contents(entries[LabelOf(v) := Entry(v, order)]) == Contents(entries)[LabelOf(v) := v]
  {
  }

  /** Feeding a table: contents follow the merge of everything fed, and a copy taken before
      is brought up to date by what the table then returns from that cursor on. */
  method InsertAll(table: CrdsTable, vs: seq<Value>) returns (delta: seq<Value>, ghost orders: seq<nat>)
    requires table.Valid() && |table.entries| + |vs| <= MAX_CRDS_ENTRIES
    modifies table
    ensures table.Valid() && Contents(table.entries) == MergeAll(Contents(old(table.entries)), vs, |vs|)
    ensures Lists(table.entries, table.index, old(table.cursor), orders, delta)
    ensures Overwrite(Contents(old(table.entries)), delta, |delta|) == Contents(table.entries)
  {
    hide Indexed, Contents, Merge, Overwrite, Min, Grown, Lists;
    ghost var was := table.entries;
    var c := table.cursor;
    GrownStart(table.entries, table.index, table.cursor);
    for n := 0 to |vs|
      invariant table.Valid() && |table.entries| <= |was| + n && c <= table.cursor
      invariant Contents(table.entries) == MergeAll(Contents(was), vs, n)
      invariant Grown(was, c, table.entries)
    {
      GrownPut(was, c, table.entries, table.index, table.cursor, vs[n]);
      PutSize(table.entries, LabelOf(vs[n]), Entry(vs[n], table.cursor));
      var _ := table.Insert(vs[n]);
    }
    delta, orders := table.ValuesSince(c);
    DeltaSync(was, c, table.entries, table.index, table.cursor, orders, delta);
  }
}
