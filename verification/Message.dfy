/** The instruction compiler (core/src/message.rs): a list of instructions naming accounts
    by key becomes a message naming them by position, with each account's role encoded in
    its position and three header counts. */
module Messages {
  import opened Crypto

  datatype AccountMeta = AccountMeta(pubkey: Address, isSigner: bool, isWritable: bool)
  datatype Instruction = Instruction(programId: Address, accounts: seq<AccountMeta>, data: seq<U8>)
  datatype CompiledInstruction = CompiledInstruction(programIdIndex: U8, accounts: seq<U8>, data: seq<U8>)

  datatype Message = Message(
    numRequiredSignatures: U8,
    numReadonlySigned: U8,
    numReadonlyUnsigned: U8,
    accountKeys: seq<Address>,
    recentBlockhash: Address,
    instructions: seq<CompiledInstruction>)
  {
    predicate IsSigner(index: nat) {
      index < numRequiredSignatures
    }

    /** Positional roles: signed accounts are writable except the last
        `numReadonlySigned` of them, unsigned ones except the last `numReadonlyUnsigned`.
        The subtractions wrap around; in the unsigned case the signature count is taken
        away and added again, which cancels whether or not anything wrapped. */
    predicate IsWritable(index: nat) {
      if index >= |accountKeys| then false
      else if IsSigner(index) then index < WrappingSub(numRequiredSignatures, numReadonlySigned)
      else index < WrappingSub(|accountKeys|, numReadonlyUnsigned)
    }

    /** What the executors rely on: there is a payer, it is writable, and the header
        counts fit the key list, so that no subtraction in `IsWritable` underflows. */
    predicate WellFormed() {
      && |accountKeys| > 0
      && numReadonlySigned <= numRequiredSignatures
      && numRequiredSignatures + numReadonlyUnsigned <= |accountKeys|
      && IsWritable(0)
    }
  }

  /** Subtraction of 64-bit words. */
  function WrappingSub(a: nat, b: nat): (r: int) {
    if b <= a then a - b else a - b + U64_LIMIT
  }

  // ---------------------------------------------------------------------------------
  // What an instruction list says about a key

  /** Every place where an instruction list names a key, in scanning order. */
  datatype Mention = AsProgram(key: Address) | AsAccount(meta: AccountMeta)

  function KeyOf(m: Mention): (k: Address) {
    match m
    case AsProgram(key) => key
    case AsAccount(meta) => meta.pubkey
  }

  function MetaMentions(metas: seq<AccountMeta>): (r: seq<Mention>)
    ensures |r| == |metas| && forall i :: 0 <= i < |r| ==> r[i] == AsAccount(metas[i])
  {
    seq(|metas|, i requires 0 <= i < |metas| => AsAccount(metas[i]))
  }

  function Mentions(ixs: seq<Instruction>): (r: seq<Mention>) {
    if |ixs| == 0 then [] else
      var last := ixs[|ixs| - 1];
      Mentions(ixs[..|ixs| - 1]) + [AsProgram(last.programId)] + MetaMentions(last.accounts)
  }

  ghost predicate Mentioned(ms: seq<Mention>, k: Address) {
    exists i :: 0 <= i < |ms| && KeyOf(ms[i]) == k
  }

  ghost function Keys(payer: Address, ms: seq<Mention>): (r: set<Address>) {
    {payer} + set m | m in ms :: KeyOf(m)
  }

  predicate SignsAs(m: Mention, k: Address) {
    m.AsAccount? && m.meta.pubkey == k && m.meta.isSigner
  }

  predicate WritesAs(m: Mention, k: Address) {
    m.AsAccount? && m.meta.pubkey == k && m.meta.isWritable
  }

  /** A key must sign when it pays or when some instruction asks for its signature. */
  ghost predicate MustSign(payer: Address, ms: seq<Mention>, k: Address) {
    k == payer || exists i :: 0 <= i < |ms| && SignsAs(ms[i], k)
  }

  /** A key may be written when it pays, or when some instruction asks to write it and no
      later instruction names it as a program.  (Being named as a program earlier does not
      take the permission away.) */
  ghost predicate MayWrite(payer: Address, ms: seq<Mention>, k: Address) {
    k == payer
    || exists i :: 0 <= i < |ms| && WritesAs(ms[i], k) && forall j :: i < j < |ms| ==> ms[j] != AsProgram(k)
  }

  /** One more mention changes the three readings as the scan does. */
  lemma {:induction false} MentionStep(payer: Address, ms: seq<Mention>, m: Mention, k: Address)
    ensures Mentioned(ms + [m], k) <==> Mentioned(ms, k) || KeyOf(m) == k
    ensures MustSign(payer, ms + [m], k) <==> MustSign(payer, ms, k) || SignsAs(m, k)
    ensures MayWrite(payer, ms + [m], k) <==>
            k == payer || (MayWrite(payer, ms, k) && m != AsProgram(k)) || WritesAs(m, k)
  {
    var all, n := ms + [m], |ms|;
    assert all[n] == m;
    assert forall i :: 0 <= i < n ==> all[i] == ms[i];
    if k != payer {
      if MayWrite(payer, ms, k) && m != AsProgram(k) {
        var i :| 0 <= i < n && WritesAs(ms[i], k) && forall j :: i < j < n ==> ms[j] != AsProgram(k);
        assert WritesAs(all[i], k) && forall j :: i < j < |all| ==> all[j] != AsProgram(k);
      }
      if WritesAs(m, k) {
        assert WritesAs(all[n], k);
      }
      if MayWrite(payer, all, k) {
        var i :| 0 <= i < |all| && WritesAs(all[i], k) && forall j :: i < j < |all| ==> all[j] != AsProgram(k);
        if i < n {
          assert WritesAs(ms[i], k) && forall j :: i < j < n ==> ms[j] != AsProgram(k);
          assert all[n] != AsProgram(k);
        }
      }
    }
    if MustSign(payer, ms, k) && k != payer {
      var i :| 0 <= i < n && SignsAs(ms[i], k);
      assert SignsAs(all[i], k);
    }
    if SignsAs(m, k) { assert SignsAs(all[n], k); }
    if KeyOf(m) == k { assert KeyOf(all[n]) == k; }
    if Mentioned(ms, k) {
      var i :| 0 <= i < n && KeyOf(ms[i]) == k;
      assert KeyOf(all[i]) == k;
    }
  }

  // ---------------------------------------------------------------------------------
  // The scan: parallel vectors of keys and flags

  datatype Scan = Scan(keys: seq<Address>, signer: seq<bool>, writable: seq<bool>) {
    ghost predicate Shaped() {
      && |keys| == |signer| == |writable|
      && forall p, q :: 0 <= p < q < |keys| ==> keys[p] != keys[q]
    }
  }

  /** First position of `k`, or the length when absent. */
  function Position(keys: seq<Address>, k: Address): (p: nat)
    ensures p <= |keys|
    ensures p < |keys| ==> keys[p] == k
    ensures k in keys ==> p < |keys|
  {
    if |keys| == 0 then 0 else if keys[0] == k then 0 else 1 + Position(keys[1..], k)
  }

  lemma {:induction false} PositionIsFirst(keys: seq<Address>, k: Address, q: nat)
    requires q < |keys| && keys[q] == k
    ensures Position(keys, k) <= q && k !in keys[..Position(keys, k)]
  {
    if keys[0] == k {
    } else {
      PositionIsFirst(keys[1..], k, q - 1);
      var p := Position(keys[1..], k);
      assert keys[..1 + p] == [keys[0]] + keys[1..][..p];
    }
  }

  /** The scan after naming one more key. */
  function Note(s: Scan, m: Mention): (r: Scan)
    requires s.Shaped()
  {
    var p := Position(s.keys, KeyOf(m));
    match m
    case AsProgram(key) =>
      if p < |s.keys| then
        if p != 0 then s.(writable := s.writable[p := false]) else s
      else
        Scan(s.keys + [key], s.signer + [false], s.writable + [false])
    case AsAccount(meta) =>
      if p < |s.keys| then
        s.(signer := s.signer[p := s.signer[p] || meta.isSigner],
           writable := s.writable[p := s.writable[p] || meta.isWritable])
      else
        Scan(s.keys + [meta.pubkey], s.signer + [meta.isSigner], s.writable + [meta.isWritable])
  }

  /** The scan holds exactly the keys named so far, payer first, with their flags. */
  ghost predicate Tracks(s: Scan, payer: Address, ms: seq<Mention>) {
    && s.Shaped()
    && |s.keys| > 0 && s.keys[0] == payer
    && (forall k :: k in s.keys <==> k == payer || Mentioned(ms, k))
    && (forall p :: 0 <= p < |s.keys| ==> (s.signer[p] <==> MustSign(payer, ms, s.keys[p])))
    && (forall p :: 0 <= p < |s.keys| ==> (s.writable[p] <==> MayWrite(payer, ms, s.keys[p])))
  }

  lemma {:induction false} NoteTracks(s: Scan, payer: Address, ms: seq<Mention>, m: Mention)
    requires Tracks(s, payer, ms)
    ensures Tracks(Note(s, m), payer, ms + [m])
  {
    var r, all, key := Note(s, m), ms + [m], KeyOf(m);
    assert key !in s.keys ==> r.keys[|s.keys|] == key;
    forall k ensures k in r.keys <==> k == payer || Mentioned(all, k) {
      MentionStep(payer, ms, m, k);
    }
    forall p | 0 <= p < |r.keys|
      ensures r.signer[p] <==> MustSign(payer, all, r.keys[p])
      ensures r.writable[p] <==> MayWrite(payer, all, r.keys[p])
    {
      var k := r.keys[p];
      MentionStep(payer, ms, m, k);
      if p == |s.keys| {
        assert k !in s.keys;
        NeverNamed(payer, ms, k);
      } else {
        assert k == s.keys[p];
      }
    }
  }

  /** `a` is named before any mention of `b`. */
  ghost predicate NamedBefore(ms: seq<Mention>, a: Address, b: Address) {
    exists i :: 0 <= i < |ms| && KeyOf(ms[i]) == a && forall j :: 0 <= j <= i ==> KeyOf(ms[j]) != b
  }

  /** After the payer the keys stand in the order of their first mention. */
  ghost predicate InFirstOrder(keys: seq<Address>, ms: seq<Mention>) {
    forall p, q :: 1 <= p < q < |keys| ==> NamedBefore(ms, keys[p], keys[q])
  }

  lemma {:induction false} NamedStays(ms: seq<Mention>, m: Mention, a: Address, b: Address)
    requires NamedBefore(ms, a, b)
    ensures NamedBefore(ms + [m], a, b)
  {
    var i :| 0 <= i < |ms| && KeyOf(ms[i]) == a && forall j :: 0 <= j <= i ==> KeyOf(ms[j]) != b;
    assert KeyOf((ms + [m])[i]) == a && forall j :: 0 <= j <= i ==> KeyOf((ms + [m])[j]) != b;
  }

  lemma {:induction false} NamedFirst(ms: seq<Mention>, m: Mention, a: Address, b: Address)
    requires Mentioned(ms, a) && !Mentioned(ms, b)
    ensures NamedBefore(ms + [m], a, b)
  {
    var i :| 0 <= i < |ms| && KeyOf(ms[i]) == a;
    assert KeyOf((ms + [m])[i]) == a && forall j :: 0 <= j <= i ==> KeyOf((ms + [m])[j]) != b;
  }

  lemma {:induction false} NoteOrders(s: Scan, payer: Address, ms: seq<Mention>, m: Mention)
    requires Tracks(s, payer, ms) && InFirstOrder(s.keys, ms)
    ensures InFirstOrder(Note(s, m).keys, ms + [m])
  {
    var r, n := Note(s, m), |s.keys|;
    assert s.keys <= r.keys && |r.keys| <= n + 1;
    assert |r.keys| == n + 1 ==> r.keys[n] == KeyOf(m) && KeyOf(m) !in s.keys;
    forall p, q | 1 <= p < q < |r.keys| ensures NamedBefore(ms + [m], r.keys[p], r.keys[q]) {
      if q < n {
        NamedStays(ms, m, s.keys[p], s.keys[q]);
      } else {
        assert s.keys[p] in s.keys && s.keys[p] != payer;
        NamedFirst(ms, m, s.keys[p], KeyOf(m));
      }
    }
  }

  lemma {:induction false} NeverNamed(payer: Address, ms: seq<Mention>, k: Address)
    requires k != payer && !Mentioned(ms, k)
    ensures !MustSign(payer, ms, k) && !MayWrite(payer, ms, k)
  {
  }

  // ---------------------------------------------------------------------------------
  // Sorting by role

  /** The positions in `[1, hi)` whose flags are `(s, w)`, in increasing order. */
  function Class(sc: Scan, s: bool, w: bool, hi: nat): (r: seq<nat>)
    requires sc.Shaped() && 1 <= hi <= |sc.keys|
  {
    if hi == 1 then [] else
      var prior := Class(sc, s, w, hi - 1);
      if sc.signer[hi - 1] == s && sc.writable[hi - 1] == w then prior + [hi - 1] else prior
  }

  lemma {:induction false} ClassMembers(sc: Scan, s: bool, w: bool, hi: nat)
    requires sc.Shaped() && 1 <= hi <= |sc.keys|
    ensures var r := Class(sc, s, w, hi);
            && (forall a :: 0 <= a < |r| ==> 1 <= r[a] < hi && sc.signer[r[a]] == s && sc.writable[r[a]] == w)
            && (forall p :: 1 <= p < hi && sc.signer[p] == s && sc.writable[p] == w ==> p in r)
            && (forall a, b :: 0 <= a < b < |r| ==> r[a] < r[b])
  {
    if hi == 1 {
    } else {
      ClassMembers(sc, s, w, hi - 1);
      var before, r := Class(sc, s, w, hi - 1), Class(sc, s, w, hi);
      hide Class;
      assert forall a :: 0 <= a < |before| ==> r[a] == before[a];
    }
  }

  /** Payer, then signed-writable, signed-readonly, unsigned-writable, unsigned-readonly:
      the stable sort of all positions but the first by role. */
  function Order(sc: Scan): (r: seq<nat>)
    requires sc.Shaped() && |sc.keys| > 0
  {
    var n := |sc.keys|;
    [0] + Class(sc, true, true, n) + Class(sc, true, false, n) + Class(sc, false, true, n) + Class(sc, false, false, n)
  }

  function CountSigned(sc: Scan, hi: nat): (r: nat)
    requires sc.Shaped() && hi <= |sc.keys|
    ensures r <= hi
  {
    if hi == 0 then 0 else CountSigned(sc, hi - 1) + if sc.signer[hi - 1] then 1 else 0
  }

  function CountRole(sc: Scan, s: bool, w: bool, hi: nat): (r: nat)
    requires sc.Shaped() && hi <= |sc.keys|
    ensures r <= hi
  {
    if hi == 0 then 0 else
      CountRole(sc, s, w, hi - 1) + if sc.signer[hi - 1] == s && sc.writable[hi - 1] == w then 1 else 0
  }

  lemma {:induction false} ClassSize(sc: Scan, s: bool, w: bool, hi: nat)
    requires sc.Shaped() && 1 <= hi <= |sc.keys| && sc.signer[0] && sc.writable[0]
    ensures CountRole(sc, s, w, hi) == |Class(sc, s, w, hi)| + if s && w then 1 else 0
  {
    if hi == 1 {
      assert CountRole(sc, s, w, 0) == 0;
    } else {
      ClassSize(sc, s, w, hi - 1);
    }
  }

  lemma {:induction false} RolesPartition(sc: Scan, hi: nat)
    requires sc.Shaped() && hi <= |sc.keys|
    ensures CountSigned(sc, hi) == CountRole(sc, true, true, hi) + CountRole(sc, true, false, hi)
    ensures hi == CountSigned(sc, hi) + CountRole(sc, false, true, hi) + CountRole(sc, false, false, hi)
  {
    if hi == 0 {
    } else {
      RolesPartition(sc, hi - 1);
    }
  }

  /** The header counts are the sizes of the role classes. */
  lemma {:induction false} CountsMatch(sc: Scan)
    requires sc.Shaped() && |sc.keys| > 0 && sc.signer[0] && sc.writable[0]
    ensures var n := |sc.keys|;
            && CountSigned(sc, n) == 1 + |Class(sc, true, true, n)| + |Class(sc, true, false, n)|
            && CountRole(sc, true, false, n) == |Class(sc, true, false, n)|
            && CountRole(sc, false, false, n) == |Class(sc, false, false, n)|
            && n == CountSigned(sc, n) + |Class(sc, false, true, n)| + |Class(sc, false, false, n)|
  {
    var n := |sc.keys|;
    RolesPartition(sc, n);
    ClassSize(sc, true, true, n);
    ClassSize(sc, true, false, n);
    ClassSize(sc, false, true, n);
    ClassSize(sc, false, false, n);
  }

  /** Where a position of a concatenation of four parts after a single element falls. */
  lemma {:induction false} ConcatAt(a: seq<nat>, b: seq<nat>, c: seq<nat>, d: seq<nat>, p: nat)
    requires 1 <= p <= |a| + |b| + |c| + |d|
    ensures ([0] + a + b + c + d)[p]
         == if p <= |a| then a[p - 1]
            else if p <= |a| + |b| then b[p - 1 - |a|]
            else if p <= |a| + |b| + |c| then c[p - 1 - |a| - |b|]
            else d[p - 1 - |a| - |b| - |c|]
  {
  }

  /** The class and the offset in it behind each position of the order. */
  lemma {:induction false} OrderAt(sc: Scan, p: nat)
    requires sc.Shaped() && |sc.keys| > 0 && 1 <= p < |Order(sc)|
    ensures var n := |sc.keys|;
            var a, b, c := |Class(sc, true, true, n)|, |Class(sc, true, false, n)|, |Class(sc, false, true, n)|;
            Order(sc)[p] == if p <= a then Class(sc, true, true, n)[p - 1]
                            else if p <= a + b then Class(sc, true, false, n)[p - 1 - a]
                            else if p <= a + b + c then Class(sc, false, true, n)[p - 1 - a - b]
                            else Class(sc, false, false, n)[p - 1 - a - b - c]
  {
    var n := |sc.keys|;
    ConcatAt(Class(sc, true, true, n), Class(sc, true, false, n), Class(sc, false, true, n),
        Class(sc, false, false, n), p);
  }

  lemma {:induction false} AllClassMembers(sc: Scan)
    requires sc.Shaped() && |sc.keys| > 0
    ensures forall s, w :: var r := Class(sc, s, w, |sc.keys|);
              && (forall a :: 0 <= a < |r| ==> 1 <= r[a] < |sc.keys| && sc.signer[r[a]] == s && sc.writable[r[a]] == w)
              && (forall p :: 1 <= p < |sc.keys| && sc.signer[p] == s && sc.writable[p] == w ==> p in r)
              && (forall a, b :: 0 <= a < b < |r| ==> r[a] < r[b])
  {
    forall s, w {
      ClassMembers(sc, s, w, |sc.keys|);
    }
  }

  /** The role of the account at a position of the order can be read off the position. */
  lemma {:induction false} OrderByRole(sc: Scan, p: nat)
    requires sc.Shaped() && |sc.keys| > 0 && sc.signer[0] && sc.writable[0] && p < |sc.keys|
    ensures var r, n := Order(sc), |sc.keys|;
            var signed, ro, free := CountSigned(sc, n), CountRole(sc, true, false, n), CountRole(sc, false, false, n);
            && |r| == n && r[p] < n && (r[p] == 0 <==> p == 0)
            && (sc.signer[r[p]] <==> p < signed)
            && (sc.writable[r[p]] <==> p < signed - ro || signed <= p < n - free)
            && signed >= 1 + ro && signed + free <= n
  {
    CountsMatch(sc);
    AllClassMembers(sc);
    if p > 0 { OrderAt(sc, p); }
  }

  /** The order is a permutation of the positions. */
  lemma {:induction false} OrderPermutes(sc: Scan)
    requires sc.Shaped() && |sc.keys| > 0 && sc.signer[0] && sc.writable[0]
    ensures var r, n := Order(sc), |sc.keys|;
            && |r| == n
            && (forall p :: 0 <= p < n ==> r[p] < n)
            && (forall p, q :: 0 <= p < q < n ==> r[p] != r[q])
            && (forall i :: 0 <= i < n ==> i in r)
  {
    var r, n := Order(sc), |sc.keys|;
    CountsMatch(sc);
    AllClassMembers(sc);
    forall p | 0 <= p < n ensures r[p] < n { OrderByRole(sc, p); }
    forall p, q | 0 <= p < q < n ensures r[p] != r[q] {
      OrderByRole(sc, p);
      OrderByRole(sc, q);
      OrderAt(sc, q);
      if p > 0 { OrderAt(sc, p); }
    }
    forall i | 0 <= i < n ensures i in r {
      if i > 0 {
        assert i in Class(sc, sc.signer[i], sc.writable[i], n);
        InOrder(sc, sc.signer[i], sc.writable[i], i);
      } else {
        assert r[0] == 0;
      }
    }
  }

  /** Within one role the sort keeps the order of the scan. */
  lemma {:induction false} OrderStable(sc: Scan, p: nat, q: nat)
    requires sc.Shaped() && |sc.keys| > 0 && sc.signer[0] && sc.writable[0] && 1 <= p < q < |sc.keys|
    ensures |Order(sc)| == |sc.keys| && Order(sc)[p] < |sc.keys| && Order(sc)[q] < |sc.keys|
    ensures var i, j := Order(sc)[p], Order(sc)[q];
            sc.signer[i] == sc.signer[j] && sc.writable[i] == sc.writable[j] ==> 1 <= i < j
  {
    CountsMatch(sc);
    AllClassMembers(sc);
    OrderByRole(sc, p);
    OrderByRole(sc, q);
    OrderAt(sc, p);
    OrderAt(sc, q);
  }

  lemma {:induction false} InOrder(sc: Scan, s: bool, w: bool, i: nat)
    requires sc.Shaped() && |sc.keys| > 0 && i in Class(sc, s, w, |sc.keys|)
    ensures i in Order(sc)
  {
    var n := |sc.keys|;
    var a, b := [0] + Class(sc, true, true, n), Class(sc, true, false, n);
    var c, d := Class(sc, false, true, n), Class(sc, false, false, n);
    assert Order(sc) == a + b + c + d;
    if s && w { assert i in a; }
  }

  // ---------------------------------------------------------------------------------
  // Compilation

  /** Position `k` gets in the sorted list, cut to one byte as the message stores it. */
  function IndexOf(keys: seq<Address>, oldToNew: seq<nat>, k: Address): (r: U8)
    requires k in keys && |oldToNew| == |keys|
  {
    oldToNew[Position(keys, k)] % 256
  }

  function CompileOne(ix: Instruction, keys: seq<Address>, oldToNew: seq<nat>): (r: CompiledInstruction)
    requires |oldToNew| == |keys| && ix.programId in keys
    requires forall i :: 0 <= i < |ix.accounts| ==> ix.accounts[i].pubkey in keys
  {
    CompiledInstruction(
      IndexOf(keys, oldToNew, ix.programId),
      seq(|ix.accounts|, i requires 0 <= i < |ix.accounts| => IndexOf(keys, oldToNew, ix.accounts[i].pubkey)),
      ix.data)
  }

  /** A compiled instruction names the program, the accounts and the data of the original. */
  ghost predicate Resolves(keys: seq<Address>, ix: Instruction, c: CompiledInstruction) {
    && c.data == ix.data
    && c.programIdIndex < |keys| && keys[c.programIdIndex] == ix.programId
    && |c.accounts| == |ix.accounts|
    && forall i :: 0 <= i < |ix.accounts| ==> c.accounts[i] < |keys| && keys[c.accounts[i]] == ix.accounts[i].pubkey
  }

  /** The message means what the instruction list says. */
  ghost predicate Faithful(ixs: seq<Instruction>, payer: Address, msg: Message) {
    && |msg.instructions| == |ixs|
    && (forall i :: 0 <= i < |ixs| ==> Resolves(msg.accountKeys, ixs[i], msg.instructions[i]))
    && (forall p :: 0 <= p < |msg.accountKeys| ==>
          && (msg.IsSigner(p) <==> MustSign(payer, Mentions(ixs), msg.accountKeys[p]))
          && (msg.IsWritable(p) <==> MayWrite(payer, Mentions(ixs), msg.accountKeys[p])))
  }

  /** The keys fit one-byte indices and the signers fit the one-byte signature count. */
  ghost predicate Fits(ixs: seq<Instruction>, payer: Address) {
    |Keys(payer, Mentions(ixs))| <= 256 && |Signers(payer, Mentions(ixs))| <= 255
  }

  ghost function Signers(payer: Address, ms: seq<Mention>): (r: set<Address>) {
    set k | k in Keys(payer, ms) && MustSign(payer, ms, k)
  }

  ghost function WritableSigners(payer: Address, ms: seq<Mention>): (r: set<Address>) {
    set k | k in Signers(payer, ms) && MayWrite(payer, ms, k)
  }

  /** So many sign that the two counts of signers, cut to a byte, come out equal: the payer
      signs, and all who sign look read-only. */
  ghost predicate PayerCut(ixs: seq<Instruction>, payer: Address) {
    |WritableSigners(payer, Mentions(ixs))| % 256 == 0 && |Signers(payer, Mentions(ixs))| % 256 != 0
  }

  /** What every message compiled from an instruction list satisfies: it names the keys of
      the list once each, payer first; its indices are in bounds; it means what the list says
      exactly if keys and signers fit; and the payer is writable unless the counts are cut. */
  ghost predicate CompiledFrom(ixs: seq<Instruction>, payer: Address, msg: Message) {
    && |msg.accountKeys| > 0 && msg.accountKeys[0] == payer
    && (forall k :: k in msg.accountKeys <==> k == payer || Mentioned(Mentions(ixs), k))
    && (forall p, q :: 0 <= p < q < |msg.accountKeys| ==> msg.accountKeys[p] != msg.accountKeys[q])
    && (forall i :: 0 <= i < |msg.instructions| ==> IndicesInBounds(msg.instructions[i], |msg.accountKeys|))
    && msg.numRequiredSignatures == |Signers(payer, Mentions(ixs))| % 256
    && (Faithful(ixs, payer, msg) <==> Fits(ixs, payer))
    && (Fits(ixs, payer) ==> msg.WellFormed())
    && (msg.IsWritable(0) <==> !PayerCut(ixs, payer))
  }

  /** After the payer, keys of one role stand in the order of their first mention. */
  ghost predicate StableOrder(ixs: seq<Instruction>, payer: Address, keys: seq<Address>) {
    forall p, q :: 1 <= p < q < |keys| ==> SameRole(payer, Mentions(ixs), keys[p], keys[q]) ==>
      NamedBefore(Mentions(ixs), keys[p], keys[q])
  }

  ghost predicate SameRole(payer: Address, ms: seq<Mention>, a: Address, b: Address) {
    && (MustSign(payer, ms, a) <==> MustSign(payer, ms, b))
    && (MayWrite(payer, ms, a) <==> MayWrite(payer, ms, b))
  }

  predicate IndicesInBounds(ix: CompiledInstruction, n: nat) {
    ix.programIdIndex < n && forall a :: a in ix.accounts ==> a < n
  }

  lemma {:induction false} MentionsSplit(ixs: seq<Instruction>, i: nat)
    requires i < |ixs|
    ensures Mentions(ixs[..i + 1]) ==
            Mentions(ixs[..i]) + [AsProgram(ixs[i].programId)] + MetaMentions(ixs[i].accounts)
  {
    assert ixs[..i + 1][..i] == ixs[..i];
  }

  /** Every key an instruction names is among the mentions. */
  lemma {:induction false} InstructionMentioned(ixs: seq<Instruction>, i: nat)
    requires i < |ixs|
    ensures Mentioned(Mentions(ixs), ixs[i].programId)
    ensures forall j :: 0 <= j < |ixs[i].accounts| ==> Mentioned(Mentions(ixs), ixs[i].accounts[j].pubkey)
    decreases |ixs|
  {
    var n := |ixs| - 1;
    var head, ms := Mentions(ixs[..n]), Mentions(ixs);
    if i < n {
      InstructionMentioned(ixs[..n], i);
      forall k | Mentioned(head, k) ensures Mentioned(ms, k) {
        var t :| 0 <= t < |head| && KeyOf(head[t]) == k;
        assert ms[t] == head[t];
      }
    } else {
      assert ms[|head|] == AsProgram(ixs[i].programId);
      forall j | 0 <= j < |ixs[i].accounts| ensures Mentioned(ms, ixs[i].accounts[j].pubkey) {
        assert ms[|head| + 1 + j] == AsAccount(ixs[i].accounts[j]);
      }
    }
  }

  /** Conversely every mention comes from an instruction. */
  lemma {:induction false} MentionedByInstruction(ixs: seq<Instruction>, k: Address) returns (i: nat)
    requires Mentioned(Mentions(ixs), k)
    ensures i < |ixs|
    ensures ixs[i].programId == k || exists j :: 0 <= j < |ixs[i].accounts| && ixs[i].accounts[j].pubkey == k
    decreases |ixs|
  {
    var n := |ixs| - 1;
    var head, ms := Mentions(ixs[..n]), Mentions(ixs);
    var t :| 0 <= t < |ms| && KeyOf(ms[t]) == k;
    if t < |head| {
      assert KeyOf(head[t]) == k;
      i := MentionedByInstruction(ixs[..n], k);
    } else {
      i := n;
      if t > |head| {
        assert ms[t] == AsAccount(ixs[n].accounts[t - |head| - 1]);
      }
    }
  }

  /** A sorted position list and its inverse. */
  ghost predicate Inverse(order: seq<nat>, oldToNew: seq<nat>) {
    && |oldToNew| == |order|
    && (forall p :: 0 <= p < |order| ==> order[p] < |order|)
    && (forall p :: 0 <= p < |order| ==> oldToNew[order[p]] == p)
    && (forall i :: 0 <= i < |order| ==> oldToNew[i] < |order| && order[oldToNew[i]] == i)
  }

  /** The keys rearranged: position `p` of the result holds the key at `order[p]`. */
  function Permute(keys: seq<Address>, order: seq<nat>): (r: seq<Address>)
    requires forall p :: 0 <= p < |order| ==> order[p] < |keys|
    ensures |r| == |order| && forall p :: 0 <= p < |r| ==> r[p] == keys[order[p]]
  {
    seq(|order|, p requires 0 <= p < |order| => keys[order[p]])
  }

  ghost predicate Scanned(ixs: seq<Instruction>, payer: Address, sc: Scan, oldToNew: seq<nat>) {
    && Tracks(sc, payer, Mentions(ixs))
    && |Order(sc)| == |sc.keys|
    && Inverse(Order(sc), oldToNew)
  }

  lemma {:induction false} NamedInScan(ixs: seq<Instruction>, payer: Address, sc: Scan, i: nat)
    requires Tracks(sc, payer, Mentions(ixs)) && i < |ixs|
    ensures ixs[i].programId in sc.keys
    ensures forall j :: 0 <= j < |ixs[i].accounts| ==> ixs[i].accounts[j].pubkey in sc.keys
  {
    InstructionMentioned(ixs, i);
  }

  function CompileAll(ixs: seq<Instruction>, ghost payer: Address, sc: Scan, oldToNew: seq<nat>,
      n: nat): (r: seq<CompiledInstruction>)
    requires Scanned(ixs, payer, sc, oldToNew) && n <= |ixs|
    ensures |r| == n
    ensures forall i :: 0 <= i < n ==>
              && ixs[i].programId in sc.keys
              && (forall j :: 0 <= j < |ixs[i].accounts| ==> ixs[i].accounts[j].pubkey in sc.keys)
              && r[i] == CompileOne(ixs[i], sc.keys, oldToNew)
  {
    if n == 0 then [] else
      NamedInScan(ixs, payer, sc, n - 1);
      CompileAll(ixs, payer, sc, oldToNew, n - 1) + [CompileOne(ixs[n - 1], sc.keys, oldToNew)]
  }

  function Assemble(ixs: seq<Instruction>, ghost payer: Address, sc: Scan, oldToNew: seq<nat>): (r: Message)
    requires Scanned(ixs, payer, sc, oldToNew)
  {
    var n := |sc.keys|;
    Message(
      CountSigned(sc, n) % 256, CountRole(sc, true, false, n) % 256, CountRole(sc, false, false, n) % 256,
      Permute(sc.keys, Order(sc)), ZERO_ADDRESS, CompileAll(ixs, payer, sc, oldToNew, |ixs|))
  }

  // ---------------------------------------------------------------------------------
  // When the compiled message means what was asked

  /** An index that fits a byte resolves to its key; one that does not resolves to another. */
  lemma {:induction false} IndexResolves(keys: seq<Address>, order: seq<nat>, oldToNew: seq<nat>, k: Address)
    requires Inverse(order, oldToNew) && |order| == |keys| && k in keys
    requires forall p, q :: 0 <= p < q < |keys| ==> keys[p] != keys[q]
    ensures var full, cut := oldToNew[Position(keys, k)], IndexOf(keys, oldToNew, k);
            && full < |keys| && Permute(keys, order)[full] == k
            && (cut < |keys| && Permute(keys, order)[cut] == k <==> full < 256)
  {
    var full, cut := oldToNew[Position(keys, k)], IndexOf(keys, oldToNew, k);
    if full >= 256 && cut < |keys| {
      assert order[cut] != order[full] by {
        assert oldToNew[order[cut]] == cut && oldToNew[order[full]] == full;
      }
    }
  }

  lemma {:induction false} ResolvesWhenFits(ixs: seq<Instruction>, payer: Address, sc: Scan, oldToNew: seq<nat>, i: nat)
    requires Scanned(ixs, payer, sc, oldToNew) && |sc.keys| <= 256 && i < |ixs|
    ensures Resolves(Permute(sc.keys, Order(sc)), ixs[i], CompileAll(ixs, payer, sc, oldToNew, |ixs|)[i])
  {
    NamedInScan(ixs, payer, sc, i);
    IndexResolves(sc.keys, Order(sc), oldToNew, ixs[i].programId);
    forall j | 0 <= j < |ixs[i].accounts|
      ensures var c := IndexOf(sc.keys, oldToNew, ixs[i].accounts[j].pubkey);
              c < |sc.keys| && Permute(sc.keys, Order(sc))[c] == ixs[i].accounts[j].pubkey
    {
      IndexResolves(sc.keys, Order(sc), oldToNew, ixs[i].accounts[j].pubkey);
    }
  }

  /** The 257th key is named by some instruction, whose index then points elsewhere. */
  lemma {:induction false} BrokenWhenTooMany(ixs: seq<Instruction>, payer: Address, sc: Scan, oldToNew: seq<nat>)
    requires Scanned(ixs, payer, sc, oldToNew) && |sc.keys| > 256
    ensures !Faithful(ixs, payer, Assemble(ixs, payer, sc, oldToNew))
  {
    var order, keys := Order(sc), Permute(sc.keys, Order(sc));
    var k := keys[256];
    assert order[0] == 0 && oldToNew[0] == 0 && oldToNew[order[256]] == 256;
    assert k == sc.keys[order[256]] != payer;
    var i := MentionedByInstruction(ixs, k);
    assert Position(sc.keys, k) == order[256];
    IndexResolves(sc.keys, Order(sc), oldToNew, k);
    var c := CompileAll(ixs, payer, sc, oldToNew, |ixs|)[i];
    assert c == CompileOne(ixs[i], sc.keys, oldToNew);
    assert !Resolves(keys, ixs[i], c);
  }

  /** A header holding the uncut counts gives each sorted position its scanned role. */
  lemma {:induction false} RolesByPosition(sc: Scan, msg: Message, p: nat)
    requires sc.Shaped() && |sc.keys| > 0 && sc.signer[0] && sc.writable[0] && p < |sc.keys|
    requires |msg.accountKeys| == |sc.keys|
    requires msg.numRequiredSignatures == CountSigned(sc, |sc.keys|)
    requires msg.numReadonlySigned == CountRole(sc, true, false, |sc.keys|)
    requires msg.numReadonlyUnsigned == CountRole(sc, false, false, |sc.keys|)
    ensures |Order(sc)| == |sc.keys| && Order(sc)[p] < |sc.keys|
    ensures msg.IsSigner(p) <==> sc.signer[Order(sc)[p]]
    ensures msg.IsWritable(p) <==> sc.writable[Order(sc)[p]]
    ensures msg.WellFormed()
  {
    OrderByRole(sc, p);
  }

  lemma {:induction false} HeaderUncut(sc: Scan)
    requires sc.Shaped() && 0 < |sc.keys| <= 256 && sc.signer[0] && sc.writable[0]
    requires CountSigned(sc, |sc.keys|) <= 255
    ensures CountRole(sc, true, false, |sc.keys|) <= 255 && CountRole(sc, false, false, |sc.keys|) <= 255
  {
    CountsMatch(sc);
  }

  /** With small counts, every position has the role the instruction list gives its key. */
  lemma {:induction false} RolesWhenFit(payer: Address, ms: seq<Mention>, sc: Scan, msg: Message, p: nat)
    requires Tracks(sc, payer, ms) && p < |sc.keys| <= 256 && CountSigned(sc, |sc.keys|) <= 255
    requires |msg.accountKeys| == |sc.keys|
    requires msg.numRequiredSignatures == CountSigned(sc, |sc.keys|) % 256
    requires msg.numReadonlySigned == CountRole(sc, true, false, |sc.keys|) % 256
    requires msg.numReadonlyUnsigned == CountRole(sc, false, false, |sc.keys|) % 256
    ensures |Order(sc)| == |sc.keys| && Order(sc)[p] < |sc.keys|
    ensures msg.IsSigner(p) <==> MustSign(payer, ms, sc.keys[Order(sc)[p]])
    ensures msg.IsWritable(p) <==> MayWrite(payer, ms, sc.keys[Order(sc)[p]])
    ensures msg.WellFormed()
  {
    HeaderUncut(sc);
    RolesByPosition(sc, msg, p);
  }

  lemma {:induction false} FaithfulWhenSmall(ixs: seq<Instruction>, payer: Address, sc: Scan, oldToNew: seq<nat>)
    requires Scanned(ixs, payer, sc, oldToNew) && |sc.keys| <= 256 && CountSigned(sc, |sc.keys|) <= 255
    ensures Faithful(ixs, payer, Assemble(ixs, payer, sc, oldToNew))
    ensures Assemble(ixs, payer, sc, oldToNew).WellFormed()
  {
    var msg := Assemble(ixs, payer, sc, oldToNew);
    forall i | 0 <= i < |ixs| ensures Resolves(msg.accountKeys, ixs[i], msg.instructions[i]) {
      ResolvesWhenFits(ixs, payer, sc, oldToNew, i);
    }
    forall p | 0 <= p < |msg.accountKeys|
      ensures msg.IsSigner(p) <==> MustSign(payer, Mentions(ixs), msg.accountKeys[p])
      ensures msg.IsWritable(p) <==> MayWrite(payer, Mentions(ixs), msg.accountKeys[p])
    {
      RolesWhenFit(payer, Mentions(ixs), sc, msg, p);
    }
    RolesWhenFit(payer, Mentions(ixs), sc, msg, 0);
  }

  /** 256 signers wrap the signature count to zero, and the payer no longer signs. */
  lemma {:induction false} BrokenWhenAllSign(ixs: seq<Instruction>, payer: Address, sc: Scan, oldToNew: seq<nat>)
    requires Scanned(ixs, payer, sc, oldToNew) && |sc.keys| <= 256 && CountSigned(sc, |sc.keys|) > 255
    ensures !Faithful(ixs, payer, Assemble(ixs, payer, sc, oldToNew))
  {
    var msg := Assemble(ixs, payer, sc, oldToNew);
    assert msg.numRequiredSignatures == CountSigned(sc, |sc.keys|) % 256 == 0;
    assert !msg.IsSigner(0);
    assert msg.accountKeys[0] == sc.keys[Order(sc)[0]] == payer;
    assert MustSign(payer, Mentions(ixs), msg.accountKeys[0]);
  }

  /** Compilation is faithful exactly when the keys and the signers fit their bytes. */
  lemma {:induction false} FaithfulIffFits(ixs: seq<Instruction>, payer: Address, sc: Scan, oldToNew: seq<nat>)
    requires Scanned(ixs, payer, sc, oldToNew)
    ensures Faithful(ixs, payer, Assemble(ixs, payer, sc, oldToNew)) <==> Fits(ixs, payer)
    ensures Fits(ixs, payer) ==> Assemble(ixs, payer, sc, oldToNew).WellFormed()
  {
    ScanSizes(ixs, payer, sc);
    if |sc.keys| > 256 {
      BrokenWhenTooMany(ixs, payer, sc, oldToNew);
    } else if CountSigned(sc, |sc.keys|) > 255 {
      BrokenWhenAllSign(ixs, payer, sc, oldToNew);
    } else {
      FaithfulWhenSmall(ixs, payer, sc, oldToNew);
    }
  }

  /** The scan's lengths and counts are the sizes of the sets of keys and of signers. */
  lemma {:induction false} ScanSizes(ixs: seq<Instruction>, payer: Address, sc: Scan)
    requires Tracks(sc, payer, Mentions(ixs))
    ensures |sc.keys| == |Keys(payer, Mentions(ixs))|
    ensures CountSigned(sc, |sc.keys|) == |Signers(payer, Mentions(ixs))|
  {
    hide Keys, MustSign, MayWrite, Mentioned, Mentions, CountSigned;
    var ms, n := Mentions(ixs), |sc.keys|;
    ScannedKeys(payer, ms, sc);
    SignerCount(sc, n);
    var signers := PrefixSigners(sc.keys, sc.signer, n);
    forall k ensures k in signers <==> k in Keys(payer, ms) && MustSign(payer, ms, k) {
      PrefixSignersAre(sc.keys, sc.signer, n, k);
    }
    assert signers == Signers(payer, ms);
  }

  lemma {:induction false} ScannedKeys(payer: Address, ms: seq<Mention>, sc: Scan)
    requires Tracks(sc, payer, ms)
    ensures |sc.keys| == |Keys(payer, ms)| && forall k :: k in Keys(payer, ms) <==> k in sc.keys
  {
    KeysAreMentioned(payer, ms);
    var prefix := PrefixKeys(sc.keys, |sc.keys|);
    hide Keys, PrefixKeys;
    assert forall k :: k in prefix <==> k in sc.keys;
    forall k: Address ensures k in prefix <==> k in Keys(payer, ms) { }
    assert prefix == Keys(payer, ms);
  }

  lemma {:induction false} KeysAreMentioned(payer: Address, ms: seq<Mention>)
    ensures forall k :: k in Keys(payer, ms) <==> k == payer || Mentioned(ms, k)
  {
    forall k | Mentioned(ms, k) ensures k in Keys(payer, ms) {
      var i :| 0 <= i < |ms| && KeyOf(ms[i]) == k;
      assert ms[i] in ms;
    }
  }

  ghost function PrefixKeys(keys: seq<Address>, hi: nat): (r: set<Address>)
    requires hi <= |keys| && forall p, q :: 0 <= p < q < |keys| ==> keys[p] != keys[q]
    ensures |r| == hi
    ensures forall k :: k in r <==> exists p :: 0 <= p < hi && keys[p] == k
  {
    if hi == 0 then {} else PrefixKeys(keys, hi - 1) + {keys[hi - 1]}
  }

  ghost function PrefixSigners(keys: seq<Address>, signer: seq<bool>, hi: nat): (r: set<Address>)
    requires hi <= |keys| == |signer|
  {
    if hi == 0 then {} else PrefixSigners(keys, signer, hi - 1) + if signer[hi - 1] then {keys[hi - 1]} else {}
  }

  lemma {:induction false} PrefixSignersAre(keys: seq<Address>, signer: seq<bool>, hi: nat, k: Address)
    requires hi <= |keys| == |signer|
    ensures k in PrefixSigners(keys, signer, hi) <==> exists p :: 0 <= p < hi && signer[p] && keys[p] == k
  {
    if hi == 0 {
    } else {
      PrefixSignersAre(keys, signer, hi - 1, k);
    }
  }

  lemma {:induction false} SignerCount(sc: Scan, hi: nat)
    requires sc.Shaped() && hi <= |sc.keys|
    ensures |PrefixSigners(sc.keys, sc.signer, hi)| == CountSigned(sc, hi)
  {
    if hi == 0 {
    } else {
      SignerCount(sc, hi - 1);
      PrefixSignersAre(sc.keys, sc.signer, hi - 1, sc.keys[hi - 1]);
    }
  }

  ghost function BothFlags(sc: Scan): (r: seq<bool>)
    requires sc.Shaped()
    ensures |r| == |sc.keys| && forall p :: 0 <= p < |r| ==> (r[p] <==> sc.signer[p] && sc.writable[p])
  {
    seq(|sc.keys|, p requires 0 <= p < |sc.keys| => sc.signer[p] && sc.writable[p])
  }

  lemma {:induction false} WritableSignerCount(sc: Scan, hi: nat)
    requires sc.Shaped() && hi <= |sc.keys|
    ensures |PrefixSigners(sc.keys, BothFlags(sc), hi)| == CountRole(sc, true, true, hi)
  {
    hide BothFlags;
    if hi == 0 {
    } else {
      WritableSignerCount(sc, hi - 1);
      PrefixSignersAre(sc.keys, BothFlags(sc), hi - 1, sc.keys[hi - 1]);
    }
  }

  lemma {:induction false} WritableSignerSize(ixs: seq<Instruction>, payer: Address, sc: Scan)
    requires Tracks(sc, payer, Mentions(ixs))
    ensures CountRole(sc, true, true, |sc.keys|) == |WritableSigners(payer, Mentions(ixs))|
  {
    hide Keys, MustSign, MayWrite, Mentioned, Mentions, CountRole, BothFlags;
    var ms, n := Mentions(ixs), |sc.keys|;
    ScannedKeys(payer, ms, sc);
    WritableSignerCount(sc, n);
    var both := PrefixSigners(sc.keys, BothFlags(sc), n);
    forall k ensures k in both <==> k in Keys(payer, ms) && MustSign(payer, ms, k) && MayWrite(payer, ms, k) {
      PrefixSignersAre(sc.keys, BothFlags(sc), n, k);
    }
    assert both == WritableSigners(payer, ms);
  }

  lemma {:induction false} SomeoneSigns(sc: Scan, hi: nat)
    requires sc.Shaped() && 0 < hi <= |sc.keys| && sc.signer[0]
    ensures CountSigned(sc, hi) > 0
  {
    if hi == 1 {
    } else {
      SomeoneSigns(sc, hi - 1);
    }
  }

  /** `w` writable and `r` read-only signers, and `u` read-only others, cut to bytes. */
  lemma {:induction false} CutHeader(msg: Message, w: nat, r: nat, u: nat)
    requires msg.numRequiredSignatures == (w + r) % 256 && msg.numReadonlySigned == r % 256
    requires msg.numReadonlyUnsigned == u % 256 && u < |msg.accountKeys|
    ensures msg.IsWritable(0) <==> !(w % 256 == 0 && (w + r) % 256 != 0)
  {
  }

  lemma {:induction false} HeaderCounts(ixs: seq<Instruction>, payer: Address, sc: Scan, oldToNew: seq<nat>)
    requires Scanned(ixs, payer, sc, oldToNew)
    ensures sc.Shaped() && |sc.keys| > 0 && sc.signer[0]
    ensures var msg, n := Assemble(ixs, payer, sc, oldToNew), |sc.keys|;
            && |msg.accountKeys| == n && msg.numRequiredSignatures == CountSigned(sc, n) % 256
            && msg.numReadonlySigned == CountRole(sc, true, false, n) % 256
            && msg.numReadonlyUnsigned == CountRole(sc, false, false, n) % 256
  {
    hide CompileAll, CountSigned, CountRole, Order, Inverse;
  }

  /** The payer of a compiled message is writable unless the writable signers are a multiple
      of 256 and the signers are not. */
  lemma {:induction false} PayerWritableIff(ixs: seq<Instruction>, payer: Address, sc: Scan, oldToNew: seq<nat>)
    requires Scanned(ixs, payer, sc, oldToNew)
    ensures Assemble(ixs, payer, sc, oldToNew).numRequiredSignatures == |Signers(payer, Mentions(ixs))| % 256
    ensures Assemble(ixs, payer, sc, oldToNew).IsWritable(0) <==> !PayerCut(ixs, payer)
  {
    hide Assemble, CountSigned, CountRole, Signers, WritableSigners, Tracks, Inverse, Order, Mentions;
    HeaderCounts(ixs, payer, sc, oldToNew);
    ScanSizes(ixs, payer, sc);
    WritableSignerSize(ixs, payer, sc);
    var n := |sc.keys|;
    RolesPartition(sc, n);
    SomeoneSigns(sc, n);
    CutHeader(Assemble(ixs, payer, sc, oldToNew), CountRole(sc, true, true, n), CountRole(sc, true, false, n),
        CountRole(sc, false, false, n));
  }

  lemma {:induction false} CompiledInBounds(ixs: seq<Instruction>, payer: Address, sc: Scan, oldToNew: seq<nat>, i: nat)
    requires Scanned(ixs, payer, sc, oldToNew) && i < |ixs|
    ensures IndicesInBounds(CompileAll(ixs, payer, sc, oldToNew, |ixs|)[i], |sc.keys|)
  {
    assert CompileAll(ixs, payer, sc, oldToNew, |ixs|)[i] == CompileOne(ixs[i], sc.keys, oldToNew);
    assert forall p :: 0 <= p < |oldToNew| ==> oldToNew[p] < |sc.keys|;
    hide CompileAll, Tracks, Order;
    OneInBounds(ixs[i], sc.keys, oldToNew);
  }

  lemma {:induction false} OneInBounds(ix: Instruction, keys: seq<Address>, oldToNew: seq<nat>)
    requires |oldToNew| == |keys| && ix.programId in keys
    requires forall i :: 0 <= i < |ix.accounts| ==> ix.accounts[i].pubkey in keys
    requires forall p :: 0 <= p < |oldToNew| ==> oldToNew[p] < |keys|
    ensures IndicesInBounds(CompileOne(ix, keys, oldToNew), |keys|)
  {
    var c := CompileOne(ix, keys, oldToNew);
    forall a | a in c.accounts ensures a < |keys| {
      var j :| 0 <= j < |c.accounts| && c.accounts[j] == a;
      assert a == IndexOf(keys, oldToNew, ix.accounts[j].pubkey);
    }
  }

  lemma {:induction false} CompiledStable(ixs: seq<Instruction>, payer: Address, sc: Scan)
    requires Tracks(sc, payer, Mentions(ixs)) && InFirstOrder(sc.keys, Mentions(ixs))
    requires forall p :: 0 <= p < |Order(sc)| ==> Order(sc)[p] < |sc.keys|
    ensures StableOrder(ixs, payer, Permute(sc.keys, Order(sc)))
  {
    hide NamedBefore, Mentioned;
    assert sc.signer[0] && sc.writable[0] && sc.Shaped() && |sc.keys| > 0;
    var keys, ms := Permute(sc.keys, Order(sc)), Mentions(ixs);
    OrderPermutes(sc);
    forall p, q | 1 <= p < q < |keys| && SameRole(payer, ms, keys[p], keys[q])
      ensures NamedBefore(ms, keys[p], keys[q])
    {
      OrderStable(sc, p, q);
    }
  }

  // ---------------------------------------------------------------------------------
  // The compiler

  method ScanInstructions(ixs: seq<Instruction>, payer: Address) returns (s: Scan)
    ensures Tracks(s, payer, Mentions(ixs)) && InFirstOrder(s.keys, Mentions(ixs))
  {
    hide InFirstOrder;
    s := Scan([payer], [true], [true]);
    assert Mentions(ixs[..0]) == [];
    OnlyPayer(payer, []);
    for i := 0 to |ixs|
      invariant Tracks(s, payer, Mentions(ixs[..i])) && InFirstOrder(s.keys, Mentions(ixs[..i]))
    {
      ghost var ms := Mentions(ixs[..i]);
      var metas := ixs[i].accounts;
      NoteTracks(s, payer, ms, AsProgram(ixs[i].programId));
      NoteOrders(s, payer, ms, AsProgram(ixs[i].programId));
      s := Note(s, AsProgram(ixs[i].programId));
      ms := ms + [AsProgram(ixs[i].programId)];
      assert ms + MetaMentions(metas[..0]) == ms;
      for j := 0 to |metas|
        invariant Tracks(s, payer, ms + MetaMentions(metas[..j]))
        invariant InFirstOrder(s.keys, ms + MetaMentions(metas[..j]))
      {
        NoteOrders(s, payer, ms + MetaMentions(metas[..j]), AsAccount(metas[j]));
        NoteTracks(s, payer, ms + MetaMentions(metas[..j]), AsAccount(metas[j]));
        s := Note(s, AsAccount(metas[j]));
        assert ms + MetaMentions(metas[..j]) + [AsAccount(metas[j])] == ms + MetaMentions(metas[..j + 1]);
      }
      assert metas[..|metas|] == metas;
      MentionsSplit(ixs, i);
    }
    assert ixs[..|ixs|] == ixs;
  }

  lemma {:induction false} OnlyPayer(payer: Address, ms: seq<Mention>)
    ensures InFirstOrder([payer], ms)
  {
  }

  /** The reverse mapping from scan positions to sorted positions. */
  method InvertOrder(order: seq<nat>) returns (oldToNew: seq<nat>)
    requires forall p :: 0 <= p < |order| ==> order[p] < |order|
    requires forall p, q :: 0 <= p < q < |order| ==> order[p] != order[q]
    requires forall i :: 0 <= i < |order| ==> i in order
    ensures Inverse(order, oldToNew)
  {
    oldToNew := seq(|order|, _ => 0);
    for p := 0 to |order|
      invariant |oldToNew| == |order|
      invariant forall q :: 0 <= q < p ==> oldToNew[order[q]] == q
    {
      oldToNew := oldToNew[order[p] := p];
    }
    forall i | 0 <= i < |order| ensures oldToNew[i] < |order| && order[oldToNew[i]] == i {
      assert i in order;
      var p :| 0 <= p < |order| && order[p] == i;
    }
  }

  /** Compiles an instruction list.  Only the empty list is refused.  The key list always
      holds each named key once, payer first; the message means what the instructions say
      exactly when the keys and signers fit the one-byte fields. */
  method Compile(ixs: seq<Instruction>, payer: Address) returns (r: Result<Message, string>)
    ensures r.Err? <==> ixs == []
    ensures r.Ok? ==> CompiledFrom(ixs, payer, r.value) && r.value.recentBlockhash == ZERO_ADDRESS
    ensures r.Ok? ==> StableOrder(ixs, payer, r.value.accountKeys)
  {
    if |ixs| == 0 {
      return Err("no instructions provided");
    }
    var sc := ScanInstructions(ixs, payer);
    OrderPermutes(sc);
    var oldToNew := InvertOrder(Order(sc));
    AssembledIs(ixs, payer, sc, oldToNew);
    hide Tracks, Inverse, Order, Assemble, CompiledFrom, StableOrder, InFirstOrder;
    r := Ok(Assemble(ixs, payer, sc, oldToNew));
  }

  lemma {:induction false} AssembledIs(ixs: seq<Instruction>, payer: Address, sc: Scan, oldToNew: seq<nat>)
    requires Scanned(ixs, payer, sc, oldToNew) && InFirstOrder(sc.keys, Mentions(ixs))
    ensures var msg := Assemble(ixs, payer, sc, oldToNew);
            && CompiledFrom(ixs, payer, msg) && msg.recentBlockhash == ZERO_ADDRESS
            && StableOrder(ixs, payer, msg.accountKeys)
  {
    hide Assemble, Tracks, Order, Inverse, StableOrder, InFirstOrder, Faithful, Fits, PayerCut, Signers, Mentions;
    FaithfulIffFits(ixs, payer, sc, oldToNew);
    PayerWritableIff(ixs, payer, sc, oldToNew);
    AssembledKeys(ixs, payer, sc, oldToNew);
    AssembledInBounds(ixs, payer, sc, oldToNew);
  }

  lemma {:induction false} AssembledKeys(ixs: seq<Instruction>, payer: Address, sc: Scan, oldToNew: seq<nat>)
    requires Scanned(ixs, payer, sc, oldToNew) && InFirstOrder(sc.keys, Mentions(ixs))
    ensures var msg := Assemble(ixs, payer, sc, oldToNew);
            && |msg.accountKeys| > 0 && msg.accountKeys[0] == payer && msg.recentBlockhash == ZERO_ADDRESS
            && (forall k :: k in msg.accountKeys <==> k == payer || Mentioned(Mentions(ixs), k))
            && (forall p, q :: 0 <= p < q < |msg.accountKeys| ==> msg.accountKeys[p] != msg.accountKeys[q])
            && StableOrder(ixs, payer, msg.accountKeys)
  {
    OrderByRole(sc, 0);
    KeysPermuted(sc);
    CompiledStable(ixs, payer, sc);
    hide CompileAll, CountSigned, CountRole, Order, Inverse, StableOrder, InFirstOrder, Mentioned, MustSign, MayWrite;
  }

  lemma {:induction false} AssembledInBounds(ixs: seq<Instruction>, payer: Address, sc: Scan, oldToNew: seq<nat>)
    requires Scanned(ixs, payer, sc, oldToNew)
    ensures var msg := Assemble(ixs, payer, sc, oldToNew);
            forall i :: 0 <= i < |msg.instructions| ==> IndicesInBounds(msg.instructions[i], |msg.accountKeys|)
  {
    hide CountSigned, CountRole, Tracks, Inverse, Order, IndicesInBounds;
    var msg := Assemble(ixs, payer, sc, oldToNew);
    forall i | 0 <= i < |msg.instructions| ensures IndicesInBounds(msg.instructions[i], |msg.accountKeys|) {
      CompiledInBounds(ixs, payer, sc, oldToNew, i);
    }
  }

  lemma {:induction false} KeysPermuted(sc: Scan)
    requires sc.Shaped() && |sc.keys| > 0 && sc.signer[0] && sc.writable[0]
    requires forall p :: 0 <= p < |Order(sc)| ==> Order(sc)[p] < |sc.keys|
    ensures forall k :: k in Permute(sc.keys, Order(sc)) <==> k in sc.keys
    ensures forall p, q :: 0 <= p < q < |Permute(sc.keys, Order(sc))| ==>
              Permute(sc.keys, Order(sc))[p] != Permute(sc.keys, Order(sc))[q]
  {
    OrderPermutes(sc);
    var order, keys := Order(sc), Permute(sc.keys, Order(sc));
    forall k | k in sc.keys ensures k in keys {
      var i :| 0 <= i < |sc.keys| && sc.keys[i] == k;
      assert i in order;
      var p :| 0 <= p < |order| && order[p] == i;
      assert keys[p] == k;
    }
    forall p, q | 0 <= p < q < |keys| ensures keys[p] != keys[q] {
      assert order[p] != order[q];
    }
  }

  /** An instruction of program `k` that also takes `k` as a writable account. */
  function WritesItself(k: Address, data: seq<U8>): (r: seq<Instruction>) {
    [Instruction(k, [AccountMeta(k, false, true)], data)]
  }

  lemma {:induction false} WritesItselfMentions(k: Address, data: seq<U8>)
    ensures Mentions(WritesItself(k, data)) == [AsProgram(k), AsAccount(AccountMeta(k, false, true))]
  {
    var ixs := WritesItself(k, data);
    assert ixs[..0] == [] && Mentions(ixs[..0]) == [];
    assert MetaMentions(ixs[0].accounts) == [AsAccount(AccountMeta(k, false, true))];
  }

  lemma {:induction false} WritesItselfFits(payer: Address, k: Address, data: seq<U8>)
    ensures Fits(WritesItself(k, data), payer)
  {
    var ms := Mentions(WritesItself(k, data));
    WritesItselfMentions(k, data);
    var keys := Keys(payer, ms);
    assert KeyOf(ms[0]) == KeyOf(ms[1]) == k;
    assert keys == {payer, k};
    var signers := set x | x in keys && MustSign(payer, ms, x);
    assert signers <= keys && keys == signers + (keys - signers);
  }

  /** Contrary to the comment that program accounts are not writable, the compiled message
      may write the program: the key was named as a program first and as a writable account
      later. */
  method ProgramThenWritable(payer: Address, k: Address, data: seq<U8>) returns (r: Result<Message, string>)
    ensures r.Ok? && |r.value.instructions| == 1
    ensures var p := r.value.instructions[0].programIdIndex;
            p < |r.value.accountKeys| && r.value.accountKeys[p] == k && r.value.IsWritable(p)
  {
    hide Keys, Fits, Mentions;
    var ixs := WritesItself(k, data);
    r := Compile(ixs, payer);
    WritesItselfFits(payer, k, data);
    WritesItselfMentions(k, data);
    ghost var ms := Mentions(ixs);
    assert WritesAs(ms[1], k);
    assert MayWrite(payer, ms, k);
    assert Resolves(r.value.accountKeys, ixs[0], r.value.instructions[0]);
  }

  /** An instruction that 256 accounts sign, all but the first of them to be written. */
  function Crowd(): (r: seq<Instruction>) {
    [Instruction(1000, seq(256, (i: nat) => AccountMeta(i + 1, true, i != 0)), [])]
  }

  lemma {:induction false} CrowdMentions()
    ensures var ms := Mentions(Crowd());
            && |ms| == 257 && ms[0] == AsProgram(1000)
            && forall i :: 1 <= i <= 256 ==> ms[i] == AsAccount(AccountMeta(i, true, i != 1))
  {
    var ixs := Crowd();
    assert ixs[..0] == [] && Mentions(ixs[..0]) == [];
    assert |ixs[0].accounts| == 256;
  }

  lemma {:induction false} CrowdRoles(k: Address)
    ensures Mentioned(Mentions(Crowd()), k) <==> 1 <= k <= 256 || k == 1000
    ensures MustSign(0, Mentions(Crowd()), k) <==> k <= 256
    ensures MayWrite(0, Mentions(Crowd()), k) <==> k <= 256 && k != 1
  {
    CrowdMentions();
    var ms := Mentions(Crowd());
    hide Mentions;
    if 1 <= k <= 256 {
      assert KeyOf(ms[k]) == k && SignsAs(ms[k], k);
      assert WritesAs(ms[k], k) <==> k != 1;
    }
    if k == 1000 {
      assert KeyOf(ms[0]) == k;
    }
  }

  ghost function Below(n: nat): (r: set<nat>)
    ensures |r| == n && forall k: nat :: k in r <==> k < n
  {
    if n == 0 then {} else Below(n - 1) + {n - 1}
  }

  lemma {:induction false} CrowdSigners(k: Address)
    ensures k in Signers(0, Mentions(Crowd())) <==> k in Below(257)
    ensures k in WritableSigners(0, Mentions(Crowd())) <==> k in Below(257) - {1}
  {
    hide Mentions, Crowd, Mentioned, MustSign, MayWrite, Keys, Below;
    KeysAreMentioned(0, Mentions(Crowd()));
    CrowdRoles(k);
  }

  /** 257 signers, 256 of them writable: both counts of signers in the header become 1. */
  lemma {:induction false} CrowdIsCut()
    ensures |Signers(0, Mentions(Crowd()))| % 256 == 1 && PayerCut(Crowd(), 0)
  {
    hide Mentions, Crowd, Signers, WritableSigners, Below;
    var signers, writable := Signers(0, Mentions(Crowd())), WritableSigners(0, Mentions(Crowd()));
    forall k: Address ensures (k in signers <==> k in Below(257)) && (k in writable <==> k in Below(257) - {1}) {
      CrowdSigners(k);
    }
    assert signers == Below(257) && writable == Below(257) - {1};
  }

  /** A compiled message whose payer is read-only. */
  method CompileCrowd() returns (r: Result<Message, string>)
    ensures r.Ok? && CompiledFrom(Crowd(), 0, r.value)
    ensures r.value.numRequiredSignatures == 1 && !r.value.IsWritable(0)
  {
    hide PayerCut, Signers;
    r := Compile(Crowd(), 0);
    CrowdIsCut();
  }

  /** An instruction that only reads the payer of the crowded message. */
  function ReadsPayer(): (r: seq<Instruction>) {
    [Instruction(3000, [AccountMeta(0, false, false)], [])]
  }

  lemma {:induction false} ReadsPayerRoles(k: Address)
    ensures Mentioned(Mentions(ReadsPayer()), k) <==> k == 3000 || k == 0
    ensures MustSign(2000, Mentions(ReadsPayer()), k) <==> k == 2000
    ensures MayWrite(2000, Mentions(ReadsPayer()), k) <==> k == 2000
  {
    var ixs, ms := ReadsPayer(), Mentions(ReadsPayer());
    assert ixs[..0] == [] && Mentions(ixs[..0]) == [];
    assert ms == [AsProgram(3000), AsAccount(AccountMeta(0, false, false))];
    assert KeyOf(ms[0]) == 3000 && KeyOf(ms[1]) == 0;
  }

  lemma {:induction false} ReadsPayerFits()
    ensures Fits(ReadsPayer(), 2000) && |Signers(2000, Mentions(ReadsPayer()))| == 1
  {
    var ms := Mentions(ReadsPayer());
    hide Mentions, ReadsPayer, Mentioned, MustSign, MayWrite, Keys;
    KeysAreMentioned(2000, ms);
    forall k: Address ensures k in Keys(2000, ms) <==> k in {2000, 3000, 0} {
      ReadsPayerRoles(k);
    }
    assert Keys(2000, ms) == {2000, 3000, 0};
    forall k: Address ensures k in Signers(2000, ms) <==> k in {2000} {
      ReadsPayerRoles(k);
    }
    assert Signers(2000, ms) == {2000};
  }
}
