/** Proof of history (consensus/src/poh.rs): the recorder, its two verifiers, and the check by
    independent windows that replay hands to the GPU (consensus/src/replay_block.rs). */
module ProofOfHistory {
  import opened Crypto

  datatype PohEntry = PohEntry(numHashes: nat, hash: Digest)

  datatype Segment = Segment(numHashes: nat, mixin: Option<Digest>, expected: Digest)

  function Step(h: Digest): (r: Digest) {
    Hashed([Sub(h)])
  }

  function MixIn(h: Digest, d: Digest): (r: Digest) {
    Hashed([Sub(h), Sub(d)])
  }

  function Iterate(h: Digest, n: nat): (r: Digest) {
    if n == 0 then h else Step(Iterate(h, n - 1))
  }

  lemma {:induction false} IterateAdd(h: Digest, m: nat, n: nat)
    ensures Iterate(Iterate(h, m), n) == Iterate(h, m + n)
  {
    if n == 0 {
    } else {
      IterateAdd(h, m, n - 1);
    }
  }

  method HashTimes(h: Digest, count: nat) returns (r: Digest)
    ensures r == Iterate(h, count)
  {
    r := h;
    for i := 0 to count
      invariant r == Iterate(h, i)
    {
      r := Step(r);
    }
  }

  // ---------------------------------------------------------------------------------
  // Verifying entries

  function CountBefore(entries: seq<PohEntry>, i: nat): (n: nat)
    requires i <= |entries|
  {
    if i == 0 then 0 else entries[i - 1].numHashes
  }

  /** Entry `i` counts beyond its predecessor and holds the hash iterated that often. */
  ghost predicate GoodEntry(initial: Digest, entries: seq<PohEntry>, i: nat)
    requires i < |entries|
  {
    entries[i].numHashes > CountBefore(entries, i) && entries[i].hash == Iterate(initial, entries[i].numHashes)
  }

  ghost predicate GoodChain(initial: Digest, entries: seq<PohEntry>) {
    forall i :: 0 <= i < |entries| ==> GoodEntry(initial, entries, i)
  }

  /** Walks the entries; the outcome is the first one that is not good. */
  method VerifyPohEntries(initial: Digest, entries: seq<PohEntry>) returns (failed: Option<nat>)
    ensures failed.None? <==> GoodChain(initial, entries)
    ensures failed.Some? ==> failed.value < |entries| && !GoodEntry(initial, entries, failed.value)
                             && forall j :: 0 <= j < failed.value ==> GoodEntry(initial, entries, j)
  {
    var current, previous := initial, 0;
    for i := 0 to |entries|
      invariant previous == CountBefore(entries, i) && current == Iterate(initial, previous)
      invariant forall j :: 0 <= j < i ==> GoodEntry(initial, entries, j)
    {
      if entries[i].numHashes <= previous {
        assert !GoodEntry(initial, entries, i);
        return Some(i);
      }
      var n := entries[i].numHashes - previous;
      IterateAdd(initial, previous, n);
      current := HashTimes(current, n);
      if current != entries[i].hash {
        assert !GoodEntry(initial, entries, i);
        return Some(i);
      }
      previous := entries[i].numHashes;
    }
    failed := None;
  }

  // ---------------------------------------------------------------------------------
  // The check by windows

  datatype Window = Window(start: Digest, delta: nat, expected: Digest)

  ghost predicate NonDecreasing(entries: seq<PohEntry>) {
    forall i :: 0 <= i < |entries| ==> CountBefore(entries, i) <= entries[i].numHashes
  }

  ghost predicate Increasing(entries: seq<PohEntry>) {
    forall i :: 0 <= i < |entries| ==> CountBefore(entries, i) < entries[i].numHashes
  }

  function HashBefore(initial: Digest, entries: seq<PohEntry>, i: nat): (h: Digest)
    requires i <= |entries|
  {
    if i == 0 then initial else entries[i - 1].hash
  }

  ghost predicate IsWindow(initial: Digest, entries: seq<PohEntry>, i: nat, w: Window)
    requires i < |entries|
  {
    w.start == HashBefore(initial, entries, i) && CountBefore(entries, i) + w.delta == entries[i].numHashes &&
        w.expected == entries[i].hash
  }

  /** One window per entry, or nothing when a count goes down. */
  method BuildWindows(initial: Digest, entries: seq<PohEntry>) returns (r: Option<seq<Window>>)
    ensures r.None? <==> !NonDecreasing(entries)
    ensures r.Some? ==> |r.value| == |entries| && forall i :: 0 <= i < |entries| ==>
              IsWindow(initial, entries, i, r.value[i])
  {
    var windows := [];
    for i := 0 to |entries|
      invariant |windows| == i
      invariant forall j :: 0 <= j < i ==> CountBefore(entries, j) <= entries[j].numHashes
      invariant forall j :: 0 <= j < i ==> IsWindow(initial, entries, j, windows[j])
    {
      var before := CountBefore(entries, i);
      if entries[i].numHashes < before {
        return None;
      }
      windows := windows + [Window(HashBefore(initial, entries, i), entries[i].numHashes - before, entries[i].hash)];
    }
    r := Some(windows);
  }

  /** All windows pass on their own. */
  ghost predicate WindowsPass(initial: Digest, entries: seq<PohEntry>)
    requires NonDecreasing(entries)
  {
    forall i :: 0 <= i < |entries| ==> WindowPasses(initial, entries, i)
  }

  ghost predicate WindowPasses(initial: Digest, entries: seq<PohEntry>, i: nat)
    requires NonDecreasing(entries) && i < |entries|
  {
    entries[i].hash == Iterate(HashBefore(initial, entries, i), entries[i].numHashes - CountBefore(entries, i))
  }

  lemma {:induction false} WindowsReach(initial: Digest, entries: seq<PohEntry>, i: nat)
    requires NonDecreasing(entries) && i < |entries| && forall j :: 0 <= j <= i ==> WindowPasses(initial, entries, j)
    ensures entries[i].hash == Iterate(initial, entries[i].numHashes)
    decreases i
  {
    assert WindowPasses(initial, entries, i);
    if i == 0 {
    } else {
      WindowsReach(initial, entries, i - 1);
      IterateAdd(initial, entries[i - 1].numHashes, entries[i].numHashes - entries[i - 1].numHashes);
    }
  }

  /** Every entry holds the hash iterated as often as it counts. */
  ghost predicate Absolute(initial: Digest, entries: seq<PohEntry>) {
    forall i :: 0 <= i < |entries| ==> entries[i].hash == Iterate(initial, entries[i].numHashes)
  }

  lemma {:induction false} AbsolutePasses(initial: Digest, entries: seq<PohEntry>, i: nat)
    requires NonDecreasing(entries) && Absolute(initial, entries) && i < |entries|
    ensures WindowPasses(initial, entries, i)
  {
    if i > 0 {
      assert entries[i - 1].hash == Iterate(initial, entries[i - 1].numHashes);
      IterateAdd(initial, entries[i - 1].numHashes, entries[i].numHashes - entries[i - 1].numHashes);
    }
  }

  /** Independent windows establish the same absolute hashes as the walk does. */
  lemma {:induction false} WindowsMeaning(initial: Digest, entries: seq<PohEntry>)
    requires NonDecreasing(entries)
    ensures WindowsPass(initial, entries) <==> Absolute(initial, entries)
  {
    hide Iterate, WindowPasses;
    if WindowsPass(initial, entries) {
      forall i | 0 <= i < |entries| ensures entries[i].hash == Iterate(initial, entries[i].numHashes) {
        WindowsReach(initial, entries, i);
      }
    }
    if Absolute(initial, entries) {
      forall i | 0 <= i < |entries| ensures WindowPasses(initial, entries, i) {
        AbsolutePasses(initial, entries, i);
      }
    }
  }

  /** On increasing counts windows and walk decide alike, and elsewhere the walk refuses.  So
      they part exactly on right hashes whose counts never fall but somewhere repeat. */
  lemma {:induction false} WindowsAgreeWithWalk(initial: Digest, entries: seq<PohEntry>)
    ensures Increasing(entries) ==>
              NonDecreasing(entries) && (WindowsPass(initial, entries) <==> GoodChain(initial, entries))
    ensures !Increasing(entries) ==> !GoodChain(initial, entries)
    ensures ((NonDecreasing(entries) && WindowsPass(initial, entries)) <==> GoodChain(initial, entries)) <==>
            !(NonDecreasing(entries) && !Increasing(entries) && Absolute(initial, entries))
  {
    if NonDecreasing(entries) {
      WindowsMeaning(initial, entries);
    }
    if Increasing(entries) {
      WindowsMeaning(initial, entries);
      forall i | 0 <= i < |entries| ensures GoodEntry(initial, entries, i) <==>
          entries[i].hash == Iterate(initial, entries[i].numHashes) { }
    } else {
      var i :| 0 <= i < |entries| && CountBefore(entries, i) >= entries[i].numHashes;
      assert !GoodEntry(initial, entries, i);
    }
  }

  /** The windows accept repeated counts, which the walk does not. */
  lemma {:induction false} RepeatedCountSplitsThem(initial: Digest)
    ensures var entries := [PohEntry(0, initial)];
            NonDecreasing(entries) && WindowsPass(initial, entries) && !GoodChain(initial, entries)
  {
    var entries := [PohEntry(0, initial)];
    assert !GoodEntry(initial, entries, 0);
  }

  /** Replay's decision: windows when a verifier is there and answers, and every delta fits
      in 32 bits; the walk otherwise. */
  method EntriesAccepted(initial: Digest, entries: seq<PohEntry>, useWindows: bool, windowsAnswer: bool)
    returns (accepted: bool)
    ensures Increasing(entries) ==> (accepted <==> GoodChain(initial, entries))
    ensures GoodChain(initial, entries) ==> accepted
    ensures accepted ==> Absolute(initial, entries)
  {
    WindowsAgreeWithWalk(initial, entries);
    if |entries| == 0 {
      return true;
    }
    if useWindows {
      var windows := BuildWindows(initial, entries);
      if windows.None? {
        return false;
      }
      var small := AllSmall(windows.value);
      if small && windowsAnswer {
        WindowsMeaning(initial, entries);
        accepted := AllPass(windows.value);
        PassIsPass(initial, entries, windows.value);
        return;
      }
    }
    var failed := VerifyPohEntries(initial, entries);
    accepted := failed.None?;
    if accepted {
      forall i | 0 <= i < |entries| ensures entries[i].hash == Iterate(initial, entries[i].numHashes) {
        assert GoodEntry(initial, entries, i);
      }
    }
  }

  method AllSmall(windows: seq<Window>) returns (b: bool)
    ensures b <==> forall i :: 0 <= i < |windows| ==> windows[i].delta < U32_LIMIT
  {
    for i := 0 to |windows|
      invariant forall j :: 0 <= j < i ==> windows[j].delta < U32_LIMIT
    {
      if windows[i].delta >= U32_LIMIT {
        return false;
      }
    }
    b := true;
  }

  method AllPass(windows: seq<Window>) returns (b: bool)
    ensures b <==> forall i :: 0 <= i < |windows| ==> windows[i].expected == Iterate(windows[i].start, windows[i].delta)
  {
    b := true;
    for i := 0 to |windows|
      invariant b <==> forall j :: 0 <= j < i ==> windows[j].expected == Iterate(windows[j].start, windows[j].delta)
    {
      var h := HashTimes(windows[i].start, windows[i].delta);
      b := b && h == windows[i].expected;
    }
  }

  lemma {:induction false} PassIsPass(initial: Digest, entries: seq<PohEntry>, windows: seq<Window>)
    requires NonDecreasing(entries) && |windows| == |entries|
    requires forall i :: 0 <= i < |entries| ==> IsWindow(initial, entries, i, windows[i])
    ensures WindowsPass(initial, entries) <==> forall i :: 0 <= i < |windows| ==>
              windows[i].expected == Iterate(windows[i].start, windows[i].delta)
  {
    forall i | 0 <= i < |entries|
      ensures WindowPasses(initial, entries, i) <==> windows[i].expected == Iterate(windows[i].start, windows[i].delta)
    {
      assert IsWindow(initial, entries, i, windows[i]);
    }
  }

  // ---------------------------------------------------------------------------------
  // The recorder

  datatype Event = Grind | Mix(d: Digest)

  /** The hash after a log of hash events. */
  function Replay(initial: Digest, log: seq<Event>): (h: Digest) {
    if log == [] then initial else
      var before := Replay(initial, log[..|log| - 1]);
      match log[|log| - 1]
      case Grind => Step(before)
      case Mix(d) => MixIn(before, d)
  }

  ghost predicate NoMix(log: seq<Event>) {
    forall i :: 0 <= i < |log| ==> log[i].Grind?
  }

  /** A log hashes to the plain iteration exactly if nothing was mixed in. */
  lemma {:induction false} PlainIffNoMix(initial: Digest, log: seq<Event>)
    ensures Replay(initial, log) == Iterate(initial, |log|) <==> NoMix(log)
    decreases |log|
  {
    if log != [] {
      var before, last := log[..|log| - 1], log[|log| - 1];
      PlainIffNoMix(initial, before);
      assert log == before + [last];
      hide Step, MixIn;
      if last.Mix? {
        MixIsNoStep(Replay(initial, before), last.d, Iterate(initial, |log| - 1));
      } else {
        StepInjective(Replay(initial, before), Iterate(initial, |log| - 1));
      }
    }
  }

  lemma {:induction false} MixIsNoStep(a: Digest, d: Digest, b: Digest)
    ensures MixIn(a, d) != Step(b)
  {
    assert |[Sub(a), Sub(d)]| == 2 && |[Sub(b)]| == 1;
  }

  lemma {:induction false} StepInjective(a: Digest, b: Digest)
    ensures Step(a) == Step(b) <==> a == b
  {
    assert [Sub(a)][0] == Sub(a) && [Sub(b)][0] == Sub(b);
  }

  lemma {:induction false} MixInjective(a: Digest, d: Digest, b: Digest, e: Digest)
    ensures MixIn(a, d) == MixIn(b, e) <==> a == b && d == e
  {
    var x, y := [Sub(a), Sub(d)], [Sub(b), Sub(e)];
    assert x[0] == Sub(a) && y[0] == Sub(b) && x[1] == Sub(d) && y[1] == Sub(e);
  }

  /** The hash binds the whole log: from one start, logs of one length lead to one hash only if
      they are equal. */
  lemma {:induction false} ReplayInjective(initial: Digest, a: seq<Event>, b: seq<Event>)
    requires |a| == |b|
    ensures Replay(initial, a) == Replay(initial, b) <==> a == b
    decreases |a|
  {
    if |a| == 0 {
    } else {
      var n := |a| - 1;
      var x, y := Replay(initial, a[..n]), Replay(initial, b[..n]);
      ReplayInjective(initial, a[..n], b[..n]);
      assert a == a[..n] + [a[n]] && b == b[..n] + [b[n]];
      hide Step, MixIn;
      StepInjective(x, y);
      if a[n].Mix? && b[n].Mix? { MixInjective(x, a[n].d, y, b[n].d); }
      if a[n].Mix? && b[n].Grind? { MixIsNoStep(x, a[n].d, y); }
      if a[n].Grind? && b[n].Mix? { MixIsNoStep(y, b[n].d, x); }
    }
  }

  lemma {:induction false} ReplayOne(initial: Digest, log: seq<Event>, e: Event)
    ensures Replay(initial, log + [e]) ==
              match e case Grind => Step(Replay(initial, log)) case Mix(d) => MixIn(Replay(initial, log), d)
  {
    assert (log + [e])[..|log|] == log;
  }

  class PohRecorder {
    var hash: Digest
    var numHashes: nat
    var tickCount: nat
    const hashesPerTick: nat
    /** Where the recorder started, and what it hashed since. */
    ghost var initial: Digest
    ghost var log: seq<Event>

    ghost predicate Valid()
      reads this
    {
      numHashes == |log| && hash == Replay(initial, log)
    }

    constructor (start: Digest, perTick: nat)
      ensures Valid() && initial == start && log == [] && tickCount == 0 && hashesPerTick == perTick
    {
      hash, numHashes, tickCount, hashesPerTick := start, 0, 0, perTick;
      initial, log := start, [];
    }

    method HashIterations(count: nat)
      requires Valid()
      modifies this
      ensures Valid() && initial == old(initial) && tickCount == old(tickCount)
      ensures log == old(log) + seq(count, _ => Grind)
      ensures count == 0 ==> hash == old(hash)
      ensures count == 1 ==> hash == Hashed([Sub(old(hash))])
    {
      ghost var was := log;
      for i := 0 to count
        invariant Valid() && initial == old(initial) && tickCount == old(tickCount)
        invariant log == was + seq(i, _ => Grind)
        invariant i == 0 ==> hash == old(hash)
        invariant i == 1 ==> hash == Hashed([Sub(old(hash))])
      {
        ReplayOne(initial, log, Grind);
        hash := Step(hash);
        numHashes := numHashes + 1;
        log := log + [Grind];
        assert seq(i + 1, _ => Grind) == seq(i, _ => Grind) + [Grind];
      }
    }

    method Record(d: Digest) returns (e: PohEntry)
      requires Valid()
      modifies this
      ensures Valid() && initial == old(initial) && tickCount == old(tickCount)
      ensures log == old(log) + [Mix(d)] && e == PohEntry(|log|, hash)
      ensures hash == Hashed([Sub(old(hash)), Sub(d)])
    {
      ReplayOne(initial, log, Mix(d));
      hash := MixIn(hash, d);
      numHashes := numHashes + 1;
      log := log + [Mix(d)];
      e := PohEntry(numHashes, hash);
    }

    /** Grinds on to the next multiple of the tick length, always at least once. */
    method Tick() returns (e: PohEntry)
      requires Valid() && hashesPerTick > 0
      modifies this
      ensures Valid() && initial == old(initial) && tickCount == old(tickCount) + 1
      ensures e == PohEntry(|log|, hash)
      ensures 0 < hashesPerTick - old(numHashes) % hashesPerTick <= hashesPerTick
      ensures log == old(log) + seq(hashesPerTick - old(numHashes) % hashesPerTick, _ => Grind)
      ensures |log| == (|old(log)| / hashesPerTick + 1) * hashesPerTick && |log| > |old(log)|
    {
      var n := SaturatingSub(hashesPerTick, numHashes % hashesPerTick);
      NextMultiple(numHashes, hashesPerTick);
      HashIterations(n);
      tickCount := tickCount + 1;
      e := PohEntry(numHashes, hash);
    }

    /** Ticks for one slot.  They verify from the starting hash exactly if nothing had been
        mixed in. */
    method ProduceSlot(ticksPerSlot: nat) returns (ticks: seq<PohEntry>)
      requires Valid() && hashesPerTick > 0
      modifies this
      ensures Valid() && initial == old(initial) && |ticks| == ticksPerSlot
      ensures tickCount == old(tickCount) + ticksPerSlot
      ensures Increasing(ticks)
      ensures ticksPerSlot > 0 ==> (GoodChain(initial, ticks) <==> NoMix(old(log)))
    {
      hide NoMix, GoodChain, Increasing, Replay, Ticking;
      ticks := [];
      ghost var was := log;
      TickStart(initial, was);
      for i := 0 to ticksPerSlot
        invariant Valid() && initial == old(initial) && |ticks| == i && tickCount == old(tickCount) + i
        invariant Ticking(initial, was, ticks, log)
      {
        TickExtends(initial, was, ticks, log, hashesPerTick - numHashes % hashesPerTick);
        var e := Tick();
        ticks := ticks + [e];
      }
      TickEnd(initial, was, ticks, log);
    }

    method Reset(start: Digest)
      requires Valid()
      modifies this
      ensures Valid() && initial == start && log == [] && tickCount == 0
    {
      hash, numHashes, tickCount := start, 0, 0;
      initial, log := start, [];
    }
  }

  lemma {:induction false} NextMultiple(n: nat, m: nat)
    requires m > 0
    ensures n + (m - n % m) == (n / m + 1) * m
  {
    assert n == (n / m) * m + n % m;
    assert (n / m + 1) * m == (n / m) * m + m;
  }

  /** The ticks of a slot so far: they count up, and they are good exactly if nothing was
      mixed in before them. */
  ghost predicate Ticking(initial: Digest, was: seq<Event>, ticks: seq<PohEntry>, log: seq<Event>) {
    && was <= log && NoMix(log[|was|..]) && CountBefore(ticks, |ticks|) <= |log| && Increasing(ticks)
    && (NoMix(was) ==> GoodChain(initial, ticks))
    && (!NoMix(was) ==> forall j :: 0 <= j < |ticks| ==> !GoodEntry(initial, ticks, j))
  }

  lemma {:induction false} TickExtends(initial: Digest, was: seq<Event>, ticks: seq<PohEntry>, log: seq<Event>, n: nat)
    requires Ticking(initial, was, ticks, log) && n > 0
    ensures var more := log + seq(n, _ => Grind);
            Ticking(initial, was, ticks + [PohEntry(|more|, Replay(initial, more))], more)
  {
    var more := log + seq(n, _ => Grind);
    var e := PohEntry(|more|, Replay(initial, more));
    GrindsKeep(was, log, n);
    PlainIffNoMix(initial, more);
    MixKept(was, more);
    hide NoMix, Replay, Iterate, GoodEntry, Increasing;
    TickAppended(initial, ticks, e);
  }

  lemma {:induction false} GrindsKeep(was: seq<Event>, log: seq<Event>, n: nat)
    requires was <= log && NoMix(log[|was|..])
    ensures var more := log + seq(n, _ => Grind);
            was <= more && NoMix(more[|was|..])
  {
    var more := log + seq(n, _ => Grind);
    assert more[|was|..] == log[|was|..] + seq(n, _ => Grind);
  }

  lemma {:induction false} TickAppended(initial: Digest, ticks: seq<PohEntry>, e: PohEntry)
    requires Increasing(ticks) && CountBefore(ticks, |ticks|) < e.numHashes
    ensures Increasing(ticks + [e]) && CountBefore(ticks + [e], |ticks| + 1) == e.numHashes
    ensures forall j :: 0 <= j < |ticks| ==> (GoodEntry(initial, ticks + [e], j) <==> GoodEntry(initial, ticks, j))
    ensures GoodEntry(initial, ticks + [e], |ticks|) <==> e.hash == Iterate(initial, e.numHashes)
  {
    hide Iterate;
    var all := ticks + [e];
    forall j | 0 <= j <= |ticks| ensures CountBefore(all, j) == CountBefore(ticks, j) { }
    forall j | 0 <= j < |ticks| ensures all[j] == ticks[j] { }
    assert all[|ticks|] == e;
    hide CountBefore;
  }

  lemma {:induction false} TickStart(initial: Digest, was: seq<Event>)
    ensures Ticking(initial, was, [], was)
  {
  }

  lemma {:induction false} TickEnd(initial: Digest, was: seq<Event>, ticks: seq<PohEntry>, log: seq<Event>)
    requires Ticking(initial, was, ticks, log)
    ensures Increasing(ticks) && (ticks != [] ==> (GoodChain(initial, ticks) <==> NoMix(was)))
  {
    if ticks != [] && !NoMix(was) { assert !GoodEntry(initial, ticks, 0); }
  }

  lemma {:induction false} MixKept(was: seq<Event>, log: seq<Event>)
    requires was <= log && NoMix(log[|was|..])
    ensures NoMix(log) <==> NoMix(was)
  {
    assert log == was + log[|was|..];
  }

  // ---------------------------------------------------------------------------------
  // Verifying chains with mixed-in transactions

  /** The hash a segment leads to. */
  function SegmentHash(h: Digest, s: Segment): (r: Digest)
    requires !(s.numHashes == 0 && s.mixin.Some?)
  {
    match s.mixin
    case None => Iterate(h, s.numHashes)
    case Some(d) => MixIn(Iterate(h, s.numHashes - 1), d)
  }

  function StartOf(initial: Digest, segments: seq<Segment>, i: nat): (h: Digest)
    requires i <= |segments|
  {
    if i == 0 then initial else segments[i - 1].expected
  }

  ghost predicate GoodSegment(initial: Digest, segments: seq<Segment>, i: nat)
    requires i < |segments|
  {
    && !(segments[i].numHashes == 0 && segments[i].mixin.Some?)
    && SegmentHash(StartOf(initial, segments, i), segments[i]) == segments[i].expected
  }

  method VerifyPohChain(initial: Digest, segments: seq<Segment>) returns (failed: Option<nat>)
    ensures failed.None? <==> forall i :: 0 <= i < |segments| ==> GoodSegment(initial, segments, i)
    ensures failed.Some? ==> failed.value < |segments| && !GoodSegment(initial, segments, failed.value)
                             && forall j :: 0 <= j < failed.value ==> GoodSegment(initial, segments, j)
  {
    var current := initial;
    for i := 0 to |segments|
      invariant current == StartOf(initial, segments, i)
      invariant forall j :: 0 <= j < i ==> GoodSegment(initial, segments, j)
    {
      var s := segments[i];
      if s.numHashes == 0 && s.mixin.Some? {
        assert !GoodSegment(initial, segments, i);
        return Some(i);
      }
      current := HashTimes(current, if s.mixin.Some? then SaturatingSub(s.numHashes, 1) else s.numHashes);
      if s.mixin.Some? {
        current := MixIn(current, s.mixin.value);
      }
      if current != s.expected {
        assert !GoodSegment(initial, segments, i);
        return Some(i);
      }
    }
    failed := None;
  }

  /** What a leader does with a recorder between two resets. */
  datatype Command = Work(count: nat) | RecordTx(d: Digest) | EmitTick

  ghost predicate AllGood(initial: Digest, segments: seq<Segment>) {
    forall i :: 0 <= i < |segments| ==> GoodSegment(initial, segments, i)
  }

  lemma {:induction false} ReplayGrinds(initial: Digest, log: seq<Event>, n: nat)
    ensures Replay(initial, log + seq(n, _ => Grind)) == Iterate(Replay(initial, log), n)
    decreases n
  {
    if n == 0 {
      assert log + seq(0, _ => Grind) == log;
    } else {
      ReplayGrinds(initial, log, n - 1);
      assert log + seq(n, _ => Grind) == (log + seq(n - 1, _ => Grind)) + [Grind];
      ReplayOne(initial, log + seq(n - 1, _ => Grind), Grind);
    }
  }

  lemma {:induction false} SegmentAppended(initial: Digest, segments: seq<Segment>, s: Segment)
    requires AllGood(initial, segments) && !(s.numHashes == 0 && s.mixin.Some?)
    requires SegmentHash(StartOf(initial, segments, |segments|), s) == s.expected
    ensures AllGood(initial, segments + [s])
  {
    var more := segments + [s];
    forall i | 0 <= i < |more| ensures GoodSegment(initial, more, i) {
      assert StartOf(initial, more, i) == StartOf(initial, segments, i);
      if i < |segments| { assert GoodSegment(initial, segments, i); }
    }
  }

  /** Whatever is ground, recorded and ticked, the chain of segments it leaves verifies. */
  method RecordChain(recorder: PohRecorder, commands: seq<Command>) returns (segments: seq<Segment>)
    requires recorder.Valid() && recorder.log == []
    requires forall i :: 0 <= i < |commands| && commands[i].EmitTick? ==> recorder.hashesPerTick > 0
    modifies recorder
    ensures recorder.Valid() && recorder.initial == old(recorder.initial)
    ensures AllGood(recorder.initial, segments)
    ensures commands != [] && !commands[|commands| - 1].Work? ==>
              segments != [] && segments[|segments| - 1].expected == recorder.hash
  {
    hide AllGood, Replay, Iterate;
    segments := [];
    EmptyChain(recorder.initial, recorder.log);
    var since := 0;
    for i := 0 to |commands|
      invariant recorder.Valid() && recorder.initial == old(recorder.initial)
      invariant AllGood(recorder.initial, segments)
      invariant recorder.hash == Iterate(StartOf(recorder.initial, segments, |segments|), since)
      invariant i > 0 && !commands[i - 1].Work? ==> segments != [] && segments[|segments| - 1].expected == recorder.hash
    {
      ghost var start := StartOf(recorder.initial, segments, |segments|);
      match commands[i]
      case Work(count) =>
        ReplayGrinds(recorder.initial, recorder.log, count);
        IterateAdd(start, since, count);
        recorder.HashIterations(count);
        since := since + count;
      case RecordTx(d) =>
        ReplayOne(recorder.initial, recorder.log, Mix(d));
        var e := recorder.Record(d);
        var s := Segment(since + 1, Some(d), e.hash);
        SegmentAppended(recorder.initial, segments, s);
        segments := segments + [s];
        since := 0;
        NoneSince(e.hash);
      case EmitTick =>
        ghost var n := recorder.hashesPerTick - recorder.numHashes % recorder.hashesPerTick;
        ReplayGrinds(recorder.initial, recorder.log, n);
        IterateAdd(start, since, n);
        var before := recorder.numHashes;
        var e := recorder.Tick();
        var s := Segment(since + (e.numHashes - before), None, e.hash);
        SegmentAppended(recorder.initial, segments, s);
        segments := segments + [s];
        since := 0;
        NoneSince(e.hash);
    }
  }

  lemma {:induction false} EmptyChain(initial: Digest, log: seq<Event>)
    requires log == []
    ensures AllGood(initial, []) && Replay(initial, log) == Iterate(StartOf(initial, [], 0), 0)
  {
  }

  lemma {:induction false} NoneSince(h: Digest)
    ensures Iterate(h, 0) == h
  {
  }
}
