/** Execution of one transaction (runtime/src/transaction_executor.rs,
    transaction_context.rs, account_loader.rs, compute_meter.rs, program_dispatch.rs).

    The value-level functions say what a transaction does to the accounts it names; the
    methods and the class below follow the source step by step and are proved to do that. */
module Transactions {
  import opened Crypto
  import opened Messages

  datatype RuntimeError =
    | InvalidInstructionData(instruction: nat)
    | SignatureVerificationFailed
    | InvalidComputeBudget
    | AccountIndexAliasing(first: nat, second: nat)
    | LoadedAccountsDataSizeExceeded(size: nat, limit: nat)
    | InsufficientFunds(needed: nat, available: nat)
    | BlockhashNotFound
    | InsufficientComputeUnits(needed: nat, remaining: nat)
    | UnknownProgram
    | LamportsOverflow
    | ReadonlyAccountModified(index: nat)
    | ExecutableAccountModified
    | AccountNotFound(index: nat)
    | AccountNotSigner(index: nat)
    | AccountNotWritable(index: nat)
    | ProgramFailure(code: nat)

  datatype Transaction = Transaction(hash: Address, message: Message, signaturesValid: bool)
  datatype ComputeBudget = ComputeBudget(computeUnitLimit: nat, dataSizeLimit: nat)

  /** The part of a transaction context that instructions change. */
  datatype Machine = Machine(accounts: seq<Account>, remaining: nat)
  datatype Processed = Processed(machine: Machine, outcome: Option<RuntimeError>)

  /** What a slot is executed in.  `process` is the processor an instruction is handed to
      (native registry or WASM), an arbitrary deterministic function; `reserved` are the
      sysvar and rent programs, which are not executable. */
  datatype Env = Env(
    slot: nat,
    lamportsPerSignature: U64,
    recentBlockhashes: set<Address>,
    reserved: set<Address>,
    parseBudget: Message -> Result<ComputeBudget, RuntimeError>,
    process: (Message, Address, seq<U8>, seq<U8>, Machine) -> Processed)

  /** Processors keep the account vector's length, and the meter never goes up. */
  ghost predicate WellBehaved(env: Env) {
    forall msg, id, indices, data, m ::
      var r := env.process(msg, id, indices, data, m).machine;
      |r.accounts| == |m.accounts| && r.remaining <= m.remaining
  }

  const INSTRUCTION_BASE_COST: nat := 200
  const INSTRUCTION_DATA_BYTE_COST: nat := 1
  const SIGNATURE_VERIFY_COST: nat := 2000

  datatype TxResult = TxResult(
    txHash: Address,
    status: Option<RuntimeError>,
    fee: nat,
    computeUnits: nat,
    deltas: seq<(Address, Account)>,
    preBalances: seq<nat>,
    postBalances: seq<nat>,
    loaded: map<Address, Account>)

  // ---------------------------------------------------------------------------------
  // Reading accounts: the slot's cache over storage

  const EMPTY_ACCOUNT := Account(0, [], ZERO_ADDRESS, false, 0)

  function View(cache: map<Address, Account>, storage: map<Address, Account>, a: Address): (r: Account) {
    if a in cache then cache[a] else if a in storage then storage[a] else EMPTY_ACCOUNT
  }

  function Snapshot(cache: map<Address, Account>, storage: map<Address, Account>, keys: seq<Address>): (r: seq<Account>)
    ensures |r| == |keys|
    ensures forall i :: 0 <= i < |keys| ==> r[i] == View(cache, storage, keys[i])
  {
    seq(|keys|, i requires 0 <= i < |keys| => View(cache, storage, keys[i]))
  }

  ghost predicate Distinct(keys: seq<Address>) {
    forall i, j :: 0 <= i < j < |keys| ==> keys[i] != keys[j]
  }

  /** Bytes of data in the first `n` accounts. */
  function DataSize(accounts: seq<Account>, n: nat): (r: nat)
    requires n <= |accounts|
  {
    if n == 0 then 0 else DataSize(accounts, n - 1) + |accounts[n - 1].data|
  }

  /** Why these keys and accounts cannot be loaded, if they cannot: the first key that
      repeats an earlier one, or the first account at which the data outgrows the limit. */
  ghost predicate LoadFails(keys: seq<Address>, accounts: seq<Account>, limit: nat, e: RuntimeError)
    requires |accounts| == |keys|
  {
    match e
    case AccountIndexAliasing(i, j) =>
      i < j < |keys| && keys[i] == keys[j] && Distinct(keys[..j]) && keys[j] !in keys[..i]
    case LoadedAccountsDataSizeExceeded(size, max) =>
      && Distinct(keys) && max == limit
      && exists n :: 0 < n <= |accounts| && size == DataSize(accounts, n) > limit && DataSize(accounts, n - 1) <= limit
    case _ => false
  }

  function FirstRepeat(keys: seq<Address>, i: nat): (j: nat)
    requires i <= |keys| && Distinct(keys[..i])
    ensures i <= j <= |keys| && Distinct(keys[..j]) && (j < |keys| ==> keys[j] in keys[..j])
    decreases |keys| - i
  {
    if i == |keys| then i
    else if keys[i] in keys[..i] then i
    else assert keys[..i + 1] == keys[..i] + [keys[i]]; FirstRepeat(keys, i + 1)
  }

  function FirstOversize(accounts: seq<Account>, limit: nat, i: nat): (n: nat)
    requires i <= |accounts| && DataSize(accounts, i) <= limit
    ensures i <= n <= |accounts| && DataSize(accounts, n) <= limit
    ensures n < |accounts| ==> DataSize(accounts, n + 1) > limit
    decreases |accounts| - i
  {
    if i == |accounts| then i
    else if DataSize(accounts, i + 1) > limit then i
    else FirstOversize(accounts, limit, i + 1)
  }

  function LoadOutcome(keys: seq<Address>, accounts: seq<Account>, limit: nat): (r: Option<RuntimeError>)
    requires |accounts| == |keys|
    ensures r.None? ==> Distinct(keys)
  {
    var j := FirstRepeat(keys, 0);
    if j < |keys| then Some(AccountIndexAliasing(Position(keys, keys[j]), j)) else
      assert keys[..j] == keys;
      var n := FirstOversize(accounts, limit, 0);
      if n < |accounts| then Some(LoadedAccountsDataSizeExceeded(DataSize(accounts, n + 1), limit)) else None
  }

  /** Loading succeeds exactly on distinct keys with little enough data, and otherwise
      reports the first obstacle. */
  lemma {:induction false} LoadOutcomeMeaning(keys: seq<Address>, accounts: seq<Account>, limit: nat)
    requires |accounts| == |keys|
    ensures LoadOutcome(keys, accounts, limit).None? <==> Distinct(keys) && DataSize(accounts, |accounts|) <= limit
    ensures LoadOutcome(keys, accounts, limit).Some? ==>
              LoadFails(keys, accounts, limit, LoadOutcome(keys, accounts, limit).value)
  {
    var j := FirstRepeat(keys, 0);
    if j < |keys| {
      var t :| 0 <= t < j && keys[..j][t] == keys[j];
      PositionIsFirst(keys, keys[j], t);
    } else {
      assert keys[..j] == keys;
      var n := FirstOversize(accounts, limit, 0);
      if n < |accounts| {
        DataSizeGrows(accounts, n + 1, |accounts|);
        assert DataSize(accounts, n + 1) > limit && DataSize(accounts, n + 1 - 1) <= limit;
      }
    }
  }

  lemma {:induction false} DataSizeGrows(accounts: seq<Account>, n: nat, m: nat)
    requires n <= m <= |accounts|
    ensures DataSize(accounts, n) <= DataSize(accounts, m)
    decreases m
  {
    if n == m {
    } else {
      DataSizeGrows(accounts, n, m - 1);
    }
  }

  // ---------------------------------------------------------------------------------
  // Checks on the message

  /** The first instruction whose program index or account indices are out of bounds. */
  function Sanitize(msg: Message, i: nat): (r: Option<RuntimeError>)
    requires i <= |msg.instructions|
    ensures r.None? <==> forall t :: i <= t < |msg.instructions| ==> InBounds(msg, t)
    decreases |msg.instructions| - i
  {
    if i == |msg.instructions| then None
    else if !InBounds(msg, i) then Some(InvalidInstructionData(i))
    else Sanitize(msg, i + 1)
  }

  predicate InBounds(msg: Message, i: nat)
    requires i < |msg.instructions|
  {
    IndicesInBounds(msg.instructions[i], |msg.accountKeys|)
  }

  /** A message the executor answers: it names a payer, or it has an instruction, which is
      then out of bounds.  On a message with neither the source has no payer to look at. */
  predicate Handled(msg: Message) {
    |msg.accountKeys| > 0 || |msg.instructions| > 0
  }

  lemma {:induction false} SaneHasPayer(msg: Message)
    requires Handled(msg) && Sanitize(msg, 0).None?
    ensures |msg.accountKeys| > 0
  {
    if |msg.instructions| > 0 { assert InBounds(msg, 0); }
  }

  function Fee(env: Env, msg: Message): (r: nat)
    ensures r <= U64_MAX
  {
    var exact := env.lamportsPerSignature * msg.numRequiredSignatures;
    if exact <= U64_MAX then exact else U64_MAX
  }

  predicate Recent(env: Env, msg: Message) {
    msg.recentBlockhash in env.recentBlockhashes || (env.slot == 0 && msg.recentBlockhash == ZERO_ADDRESS)
  }

  // ---------------------------------------------------------------------------------
  // Running instructions

  function Consume(m: Machine, units: nat): (r: Processed)
    ensures r.machine.accounts == m.accounts && r.machine.remaining <= m.remaining
  {
    if units > m.remaining then Processed(m.(remaining := 0), Some(InsufficientComputeUnits(units, m.remaining)))
    else Processed(m.(remaining := m.remaining - units), None)
  }

  function Dispatch(env: Env, msg: Message, id: Address, indices: seq<U8>, data: seq<U8>, m: Machine): (r: Processed) {
    var base := Consume(m, INSTRUCTION_BASE_COST + |data| * INSTRUCTION_DATA_BYTE_COST);
    if base.outcome.Some? then base
    else if id in env.reserved then Processed(base.machine, Some(UnknownProgram))
    else env.process(msg, id, indices, data, base.machine)
  }

  /** Instructions from the `i`-th on, stopping at the first failure. */
  function RunFrom(env: Env, msg: Message, m: Machine, i: nat): (r: Processed)
    requires WellBehaved(env) && i <= |msg.instructions|
    ensures |r.machine.accounts| == |m.accounts| && r.machine.remaining <= m.remaining
    decreases |msg.instructions| - i
  {
    if i == |msg.instructions| then Processed(m, None) else
      var ix := msg.instructions[i];
      if ix.programIdIndex >= |msg.accountKeys| then Processed(m, Some(InvalidInstructionData(i))) else
        var p := Dispatch(env, msg, msg.accountKeys[ix.programIdIndex], ix.accounts, ix.data, m);
        if p.outcome.Some? then p else RunFrom(env, msg, p.machine, i + 1)
  }

  /** Instruction `t` is paid for and its program, which is not reserved, takes the machine
      from `a` to `b` without error. */
  ghost predicate Steps(env: Env, msg: Message, t: nat, a: Machine, b: Machine) {
    && t < |msg.instructions|
    && var ix := msg.instructions[t];
       var cost := 200 + |ix.data|;
       && ix.programIdIndex < |msg.accountKeys| && cost <= a.remaining
       && var id := msg.accountKeys[ix.programIdIndex];
          && id !in env.reserved
          && env.process(msg, id, ix.accounts, ix.data, Machine(a.accounts, a.remaining - cost)) == Processed(b, None)
  }

  /** Instruction `t` fails on the machine `a`: its program is out of bounds, it cannot be paid
      for, its program is reserved, or its program fails, whatever it did until then. */
  ghost predicate Fails(env: Env, msg: Message, t: nat, a: Machine, p: Processed) {
    && t < |msg.instructions| && p.outcome.Some?
    && var ix := msg.instructions[t];
       var cost := 200 + |ix.data|;
       if ix.programIdIndex >= |msg.accountKeys| then p == Processed(a, Some(InvalidInstructionData(t)))
       else if a.remaining < cost then
         p == Processed(Machine(a.accounts, 0), Some(InsufficientComputeUnits(cost, a.remaining)))
       else
         var id, paid := msg.accountKeys[ix.programIdIndex], Machine(a.accounts, a.remaining - cost);
         if id in env.reserved then p == Processed(paid, Some(UnknownProgram))
         else p == env.process(msg, id, ix.accounts, ix.data, paid)
  }

  /** The machines after each instruction from the `i`-th on, `ms[0]` being the one before. */
  ghost predicate Trace(env: Env, msg: Message, i: nat, ms: seq<Machine>) {
    && |ms| > 0 && i + |ms| - 1 <= |msg.instructions|
    && forall k :: 0 <= k < |ms| - 1 ==> Steps(env, msg, i + k, ms[k], ms[k + 1])
  }

  /** `r` is how a run along `ms` ends: at the last machine if all instructions succeeded, and
      otherwise in the failure of the first one that did not. */
  ghost predicate EndsIn(env: Env, msg: Message, i: nat, ms: seq<Machine>, r: Processed)
    requires |ms| > 0
  {
    var t, last := i + |ms| - 1, ms[|ms| - 1];
    if r.outcome.None? then t == |msg.instructions| && r.machine == last else Fails(env, msg, t, last, r)
  }

  /** Every run goes along such machines. */
  lemma {:induction false} RunTrace(env: Env, msg: Message, m: Machine, i: nat) returns (ms: seq<Machine>)
    requires WellBehaved(env) && i <= |msg.instructions|
    ensures Trace(env, msg, i, ms) && ms[0] == m && EndsIn(env, msg, i, ms, RunFrom(env, msg, m, i))
    decreases |msg.instructions| - i
  {
    if i == |msg.instructions| {
      ms := [m];
    } else {
      var ix := msg.instructions[i];
      if ix.programIdIndex >= |msg.accountKeys| {
        ms := [m];
      } else {
        var p := Dispatch(env, msg, msg.accountKeys[ix.programIdIndex], ix.accounts, ix.data, m);
        if p.outcome.Some? {
          ms := [m];
        } else {
          var rest := RunTrace(env, msg, p.machine, i + 1);
          ms := [m] + rest;
          TracePrepend(env, msg, i, m, rest);
        }
      }
    }
  }

  lemma {:induction false} TracePrepend(env: Env, msg: Message, i: nat, m: Machine, rest: seq<Machine>)
    requires Trace(env, msg, i + 1, rest) && Steps(env, msg, i, m, rest[0])
    ensures Trace(env, msg, i, [m] + rest)
    ensures forall r :: EndsIn(env, msg, i + 1, rest, r) ==> EndsIn(env, msg, i, [m] + rest, r)
  {
    hide Steps, Fails;
    var ms := [m] + rest;
    forall k | 0 <= k < |ms| - 1 ensures Steps(env, msg, i + k, ms[k], ms[k + 1]) {
      if k > 0 { assert Steps(env, msg, i + 1 + (k - 1), rest[k - 1], rest[k - 1 + 1]); }
    }
  }

  /** And such machines determine how the run ends. */
  lemma {:induction false} TraceRuns(env: Env, msg: Message, i: nat, ms: seq<Machine>, r: Processed)
    requires WellBehaved(env) && Trace(env, msg, i, ms) && EndsIn(env, msg, i, ms, r)
    ensures RunFrom(env, msg, ms[0], i) == r
    decreases |ms|
  {
    if |ms| == 1 {
    } else {
      assert Steps(env, msg, i + 0, ms[0], ms[0 + 1]);
      forall k | 0 <= k < |ms[1..]| - 1 ensures Steps(env, msg, i + 1 + k, ms[1..][k], ms[1..][k + 1]) {
        assert Steps(env, msg, i + (k + 1), ms[k + 1], ms[k + 1 + 1]);
      }
      TraceRuns(env, msg, i + 1, ms[1..], r);
    }
  }

  /** A run succeeds, and ends on a machine, exactly if each instruction takes the machine the
      one before left and the last leaves that one. */
  lemma {:induction false} SucceedsIff(env: Env, msg: Message, m: Machine, end: Machine)
    requires WellBehaved(env)
    ensures RunFrom(env, msg, m, 0) == Processed(end, None) <==>
              exists ms :: Trace(env, msg, 0, ms) && |ms| == |msg.instructions| + 1 && ms[0] == m
                           && ms[|msg.instructions|] == end
  {
    hide RunFrom, Trace;
    var ms := RunTrace(env, msg, m, 0);
    if ns :| Trace(env, msg, 0, ns) && |ns| == |msg.instructions| + 1 && ns[0] == m && ns[|msg.instructions|] == end {
      TraceRuns(env, msg, 0, ns, Processed(end, None));
    }
  }

  /** The signature charge followed by all instructions. */
  function RunMetered(env: Env, msg: Message, m: Machine): (r: Processed)
    requires WellBehaved(env)
    ensures |r.machine.accounts| == |m.accounts| && r.machine.remaining <= m.remaining
  {
    var sig := Consume(m, msg.numRequiredSignatures * SIGNATURE_VERIFY_COST);
    if sig.outcome.Some? then sig else RunFrom(env, msg, sig.machine, 0)
  }

  /** A series of charges, up to the first that the meter cannot pay. */
  function ConsumeAll(m: Machine, costs: seq<nat>, i: nat): (r: Processed)
    requires i <= |costs|
    decreases |costs| - i
  {
    if i == |costs| then Processed(m, None) else
      var p := Consume(m, costs[i]);
      if p.outcome.Some? then p else ConsumeAll(p.machine, costs, i + 1)
  }

  function CostFrom(costs: seq<nat>, i: nat): (r: nat)
    requires i <= |costs|
    decreases |costs| - i
  {
    if i == |costs| then 0 else costs[i] + CostFrom(costs, i + 1)
  }

  /** The meter pays for a series of charges exactly if it holds their sum, and then it holds
      that much less; otherwise it ends empty. */
  lemma {:induction false} MeterExact(m: Machine, costs: seq<nat>, i: nat)
    requires i <= |costs|
    ensures var r := ConsumeAll(m, costs, i);
            && r.machine.accounts == m.accounts
            && (r.outcome.None? <==> CostFrom(costs, i) <= m.remaining)
            && r.machine.remaining == if r.outcome.None? then m.remaining - CostFrom(costs, i) else 0
    decreases |costs| - i
  {
    if i < |costs| && costs[i] <= m.remaining {
      MeterExact(Consume(m, costs[i]).machine, costs, i + 1);
    }
  }

  /** What each instruction costs before any work is done for it. */
  function BaseCosts(msg: Message): (r: seq<nat>)
    ensures |r| == |msg.instructions|
  {
    seq(|msg.instructions|, i requires 0 <= i < |msg.instructions| =>
        INSTRUCTION_BASE_COST + |msg.instructions[i].data| * INSTRUCTION_DATA_BYTE_COST)
  }

  predicate NamesReserved(env: Env, msg: Message, i: nat)
    requires i < |msg.instructions|
  {
    var at := msg.instructions[i].programIdIndex;
    at < |msg.accountKeys| && msg.accountKeys[at] in env.reserved
  }

  /** A run that succeeds could pay the base charges alone, and has at most left what they
      leave; it called no reserved program. */
  lemma {:induction false} RunIsMetered(env: Env, msg: Message, m: Machine, i: nat)
    requires WellBehaved(env) && i <= |msg.instructions| && RunFrom(env, msg, m, i).outcome.None?
    ensures RunFrom(env, msg, m, i).machine.remaining + CostFrom(BaseCosts(msg), i) <= m.remaining
    ensures var charges := ConsumeAll(m, BaseCosts(msg), i);
            charges.outcome.None? && RunFrom(env, msg, m, i).machine.remaining <= charges.machine.remaining
    ensures forall t :: i <= t < |msg.instructions| ==> !NamesReserved(env, msg, t)
    decreases |msg.instructions| - i
  {
    if i == |msg.instructions| {
    } else {
      var ix := msg.instructions[i];
      var p := Dispatch(env, msg, msg.accountKeys[ix.programIdIndex], ix.accounts, ix.data, m);
      RunIsMetered(env, msg, p.machine, i + 1);
      assert p.machine.remaining + BaseCosts(msg)[i] <= m.remaining;
    }
    MeterExact(m, BaseCosts(msg), i);
  }

  /** Programs that spend nothing and never fail run exactly as the base charges do. */
  lemma {:induction false} FreeRunIsCharges(env: Env, msg: Message, m: Machine, i: nat)
    requires WellBehaved(env) && i <= |msg.instructions| && env.process == Idle
    requires forall t :: i <= t < |msg.instructions| ==> InBounds(msg, t) && !NamesReserved(env, msg, t)
    ensures RunFrom(env, msg, m, i) == ConsumeAll(m, BaseCosts(msg), i)
    ensures RunFrom(env, msg, m, i).outcome.None? <==> CostFrom(BaseCosts(msg), i) <= m.remaining
    decreases |msg.instructions| - i
  {
    if i == |msg.instructions| {
    } else {
      var ix := msg.instructions[i];
      assert InBounds(msg, i) && !NamesReserved(env, msg, i);
      var charge := Consume(m, BaseCosts(msg)[i]);
      assert Dispatch(env, msg, msg.accountKeys[ix.programIdIndex], ix.accounts, ix.data, m) == charge;
      FreeRunIsCharges(env, msg, charge.machine, i + 1);
    }
    MeterExact(m, BaseCosts(msg), i);
  }

  /** A program that does nothing. */
  function Idle(msg: Message, id: Address, indices: seq<U8>, data: seq<U8>, m: Machine): (r: Processed) {
    Processed(m, None)
  }

  // ---------------------------------------------------------------------------------
  // What must hold after a successful run, and what is written back

  function Total(accounts: seq<Account>): (r: nat) {
    if |accounts| == 0 then 0 else Total(accounts[..|accounts| - 1]) + accounts[|accounts| - 1].lamports
  }

  function FirstReadonlyChange(msg: Message, pre: seq<Account>, post: seq<Account>, i: nat): (j: nat)
    requires |pre| == |post| && i <= |pre|
    ensures i <= j <= |pre|
    ensures forall k :: i <= k < j ==> msg.IsWritable(k) || post[k] == pre[k]
    ensures j < |pre| ==> !msg.IsWritable(j) && post[j] != pre[j]
    decreases |pre| - i
  {
    if i == |pre| then i
    else if !msg.IsWritable(i) && post[i] != pre[i] then i
    else FirstReadonlyChange(msg, pre, post, i + 1)
  }

  predicate KeepsExecutable(pre: seq<Account>, post: seq<Account>)
    requires |pre| == |post|
  {
    forall i :: 0 <= i < |pre| ==> pre[i].executable ==> post[i].executable
  }

  function CheckInvariants(msg: Message, pre: seq<Account>, post: seq<Account>): (r: Option<RuntimeError>)
    requires |pre| == |post|
    ensures r.None? <==>
              && Total(pre) == Total(post)
              && (forall i :: 0 <= i < |pre| && pre[i].executable ==> post[i].executable)
              && forall i :: 0 <= i < |pre| && post[i] != pre[i] ==> msg.IsWritable(i)
    ensures r == Some(LamportsOverflow) <==> Total(pre) != Total(post)
    ensures r.Some? && r.value.ReadonlyAccountModified? ==>
              && r.value.index < |pre| && !msg.IsWritable(r.value.index) && post[r.value.index] != pre[r.value.index]
              && forall k :: 0 <= k < r.value.index ==> msg.IsWritable(k) || post[k] == pre[k]
  {
    if Total(pre) != Total(post) then Some(LamportsOverflow) else
      var j := FirstReadonlyChange(msg, pre, post, 0);
      if j < |pre| then Some(ReadonlyAccountModified(j))
      else if !KeepsExecutable(pre, post) then Some(ExecutableAccountModified)
      else None
  }

  /** The positions below `n` whose account changed. */
  function ChangedAt(pre: seq<Account>, post: seq<Account>, n: nat): (r: seq<nat>)
    requires |pre| == |post| && n <= |pre|
    ensures forall t :: 0 <= t < |r| ==> r[t] < n && post[r[t]] != pre[r[t]]
    ensures forall s, t :: 0 <= s < t < |r| ==> r[s] < r[t]
    ensures forall i :: 0 <= i < n && post[i] != pre[i] ==> i in r
  {
    if n == 0 then [] else ChangedAt(pre, post, n - 1) + if post[n - 1] != pre[n - 1] then [n - 1] else []
  }

  /** The changed accounts, in key order. */
  function Changed(keys: seq<Address>, pre: seq<Account>, post: seq<Account>): (r: seq<(Address, Account)>)
    requires |pre| == |post| == |keys|
    ensures var at := ChangedAt(pre, post, |pre|);
            |r| == |at| && forall t :: 0 <= t < |r| ==> r[t] == (keys[at[t]], post[at[t]])
  {
    var at := ChangedAt(pre, post, |pre|);
    seq(|at|, t requires 0 <= t < |at| => (keys[at[t]], post[at[t]]))
  }

  function Balances(accounts: seq<Account>): (r: seq<nat>)
    ensures |r| == |accounts| && forall i :: 0 <= i < |r| ==> r[i] == accounts[i].lamports
  {
    seq(|accounts|, i requires 0 <= i < |accounts| => accounts[i].lamports)
  }

  function ByKey(keys: seq<Address>, accounts: seq<Account>): (r: map<Address, Account>)
    requires |keys| == |accounts|
    ensures forall k :: k in r <==> k in keys
    ensures Distinct(keys) ==> forall i :: 0 <= i < |keys| ==> r[keys[i]] == accounts[i]
  {
    if |keys| == 0 then map[] else
      var n := |keys| - 1;
      assert keys == keys[..n] + [keys[n]];
      ByKey(keys[..n], accounts[..n])[keys[n] := accounts[n]]
  }

  // ---------------------------------------------------------------------------------
  // The whole transaction, as a function of the accounts at its keys

  /** Refused before any fee is taken. */
  function Rejected(txHash: Address, e: RuntimeError): (r: TxResult) {
    TxResult(txHash, Some(e), 0, 0, [], [], [], map[])
  }

  function Charge(accounts: seq<Account>, fee: nat): (r: seq<Account>)
    requires |accounts| > 0 && fee <= accounts[0].lamports
    ensures |r| == |accounts|
  {
    accounts[0 := accounts[0].(lamports := accounts[0].lamports - fee)]
  }

  /** Failed after the fee was taken: only the payer's current account is written. */
  function PayerOnly(tx: Transaction, accounts: seq<Account>, fee: nat, e: RuntimeError, m: Machine,
      limit: nat): (r: TxResult)
    requires |accounts| == |m.accounts| == |tx.message.accountKeys| > 0 && m.remaining <= limit
  {
    var keys := tx.message.accountKeys;
    TxResult(tx.hash, Some(e), fee, limit - m.remaining, [(keys[0], m.accounts[0])],
             Balances(accounts), Balances(m.accounts), ByKey(keys, accounts))
  }

  /** How a run over the charged accounts ends: the machine it leaves, and the error from
      an instruction or from the final checks, if any. */
  function Ending(env: Env, msg: Message, charged: seq<Account>, limit: nat): (r: Processed)
    requires WellBehaved(env)
    ensures |r.machine.accounts| == |charged| && r.machine.remaining <= limit
    ensures r.outcome.None? ==> CheckInvariants(msg, charged, r.machine.accounts).None?
  {
    var p := RunMetered(env, msg, Machine(charged, limit));
    if p.outcome.Some? then p else p.(outcome := CheckInvariants(msg, charged, p.machine.accounts))
  }

  function ExecuteLoaded(env: Env, tx: Transaction, accounts: seq<Account>, limit: nat): (r: TxResult)
    requires WellBehaved(env) && |accounts| == |tx.message.accountKeys| > 0
  {
    var msg, fee := tx.message, Fee(env, tx.message);
    var loaded := ByKey(msg.accountKeys, accounts);
    if accounts[0].lamports < fee then
      TxResult(tx.hash, Some(InsufficientFunds(fee, accounts[0].lamports)), 0, 0, [], Balances(accounts),
          Balances(accounts), loaded)
    else
      var charged := Charge(accounts, fee);
      if !Recent(env, msg) then PayerOnly(tx, accounts, fee, BlockhashNotFound, Machine(charged, limit), limit) else
        var p := Ending(env, msg, charged, limit);
        if p.outcome.Some? then PayerOnly(tx, accounts, fee, p.outcome.value, p.machine, limit)
        else TxResult(tx.hash, None, fee, limit - p.machine.remaining,
                      Changed(msg.accountKeys, charged, p.machine.accounts),
                      Balances(accounts), Balances(p.machine.accounts), loaded)
  }

  function ExecuteOn(env: Env, tx: Transaction, accounts: seq<Account>, skipSignatures: bool): (r: TxResult)
    requires WellBehaved(env) && Handled(tx.message) && |accounts| == |tx.message.accountKeys|
  {
    var msg := tx.message;
    if Sanitize(msg, 0).Some? then Rejected(tx.hash, Sanitize(msg, 0).value) else
    SaneHasPayer(msg);
    if !skipSignatures && !tx.signaturesValid then Rejected(tx.hash, SignatureVerificationFailed)
    else match env.parseBudget(msg)
      case Err(e) => Rejected(tx.hash, e)
      case Ok(budget) =>
        var failure := LoadOutcome(msg.accountKeys, accounts, budget.dataSizeLimit);
        if failure.Some? then Rejected(tx.hash, failure.value)
        else ExecuteLoaded(env, tx, accounts, budget.computeUnitLimit)
  }

  // ---------------------------------------------------------------------------------
  // Footprint

  /** The keys a transaction may write: those in writable positions, and the payer. */
  ghost predicate MayTouch(msg: Message, a: Address) {
    exists i :: 0 <= i < |msg.accountKeys| && msg.accountKeys[i] == a && (i == 0 || msg.IsWritable(i))
  }

  ghost predicate DistinctKeys(deltas: seq<(Address, Account)>) {
    forall s, t :: 0 <= s < t < |deltas| ==> deltas[s].0 != deltas[t].0
  }

  ghost predicate InFootprint(msg: Message, deltas: seq<(Address, Account)>) {
    DistinctKeys(deltas) && forall t :: 0 <= t < |deltas| ==> MayTouch(msg, deltas[t].0)
  }

  lemma {:induction false} ChangedInFootprint(msg: Message, pre: seq<Account>, post: seq<Account>)
    requires |pre| == |post| == |msg.accountKeys| && Distinct(msg.accountKeys)
    requires forall i :: 0 <= i < |pre| && post[i] != pre[i] ==> msg.IsWritable(i)
    ensures InFootprint(msg, Changed(msg.accountKeys, pre, post))
  {
    var keys := msg.accountKeys;
    var d, at := Changed(keys, pre, post), ChangedAt(pre, post, |pre|);
    forall t | 0 <= t < |d| ensures MayTouch(msg, d[t].0) {
      assert msg.IsWritable(at[t]) && keys[at[t]] == d[t].0;
    }
  }

  lemma {:induction false} LoadedInFootprint(env: Env, tx: Transaction, accounts: seq<Account>, limit: nat)
    requires WellBehaved(env) && |accounts| == |tx.message.accountKeys| > 0 && Distinct(tx.message.accountKeys)
    ensures var r := ExecuteLoaded(env, tx, accounts, limit);
            InFootprint(tx.message, r.deltas) && r.loaded == ByKey(tx.message.accountKeys, accounts)
  {
    hide Balances, RunMetered, CheckInvariants, Fee;
    var msg, fee := tx.message, Fee(env, tx.message);
    assert MayTouch(msg, msg.accountKeys[0]);
    if accounts[0].lamports >= fee {
      var charged := Charge(accounts, fee);
      var p := Ending(env, msg, charged, limit);
      if Recent(env, msg) && p.outcome.None? {
        ChangedInFootprint(msg, charged, p.machine.accounts);
      }
    }
  }

  /** A transaction writes only what it may touch, each address at most once, and records
      for each the account as it was loaded. */
  lemma {:induction false} DeltasInFootprint(env: Env, tx: Transaction, accounts: seq<Account>, skip: bool)
    requires WellBehaved(env) && Handled(tx.message) && |accounts| == |tx.message.accountKeys|
    ensures var r, keys := ExecuteOn(env, tx, accounts, skip), tx.message.accountKeys;
            && InFootprint(tx.message, r.deltas)
            && (r.deltas != [] ==> Distinct(keys) && r.loaded == ByKey(keys, accounts))
  {
    var budget := env.parseBudget(tx.message);
    if Sanitize(tx.message, 0).None? && budget.Ok? && Distinct(tx.message.accountKeys) {
      SaneHasPayer(tx.message);
      LoadedInFootprint(env, tx, accounts, budget.value.computeUnitLimit);
    }
  }

  // ---------------------------------------------------------------------------------
  // Lamports

  lemma {:induction false} TotalUpdate(accounts: seq<Account>, i: nat, a: Account)
    requires i < |accounts|
    ensures Total(accounts[i := a]) == Total(accounts) - accounts[i].lamports + a.lamports
    decreases |accounts|
  {
    var n, changed := |accounts| - 1, accounts[i := a];
    if i < n {
      TotalUpdate(accounts[..n], i, a);
      assert changed[..n] == accounts[..n][i := a];
    } else {
      assert changed[..n] == accounts[..n];
    }
  }

  function Sum(xs: seq<nat>): (r: nat) {
    if |xs| == 0 then 0 else Sum(xs[..|xs| - 1]) + xs[|xs| - 1]
  }

  lemma {:induction false} SumOfBalances(accounts: seq<Account>)
    ensures Sum(Balances(accounts)) == Total(accounts)
  {
    if |accounts| == 0 {
    } else {
      var n := |accounts| - 1;
      SumOfBalances(accounts[..n]);
      assert Balances(accounts)[..n] == Balances(accounts[..n]);
    }
  }

  lemma {:induction false} ChargeTotal(accounts: seq<Account>, fee: nat)
    requires |accounts| > 0 && fee <= accounts[0].lamports
    ensures Total(Charge(accounts, fee)) + fee == Total(accounts)
  {
    TotalUpdate(accounts, 0, Charge(accounts, fee)[0]);
  }

  lemma {:induction false} LoadedConservation(env: Env, tx: Transaction, accounts: seq<Account>, limit: nat)
    requires WellBehaved(env) && |accounts| == |tx.message.accountKeys| > 0
    ensures var r := ExecuteLoaded(env, tx, accounts, limit);
            && (r.status.None? ==> Sum(r.postBalances) + r.fee == Sum(r.preBalances))
            && (r.deltas == [] && r.status.Some? ==> r.postBalances == r.preBalances && r.fee == 0)
  {
    var r := ExecuteLoaded(env, tx, accounts, limit);
    if r.status.None? {
      var charged := Charge(accounts, r.fee);
      var post := Ending(env, tx.message, charged, limit).machine.accounts;
      assert r.postBalances == Balances(post) && Total(charged) == Total(post);
      SumOfBalances(accounts);
      SumOfBalances(post);
      ChargeTotal(accounts, r.fee);
    }
  }

  /** A successful transaction's reported balances drop by exactly its fee; one that fails
      without writing anything reports no change and no fee. */
  lemma {:induction false} ReportedConservation(env: Env, tx: Transaction, accounts: seq<Account>, skip: bool)
    requires WellBehaved(env) && Handled(tx.message) && |accounts| == |tx.message.accountKeys|
    ensures var r := ExecuteOn(env, tx, accounts, skip);
            && (r.status.None? ==> Sum(r.postBalances) + r.fee == Sum(r.preBalances))
            && (r.deltas == [] && r.status.Some? ==> r.postBalances == r.preBalances && r.fee == 0)
  {
    var budget := env.parseBudget(tx.message);
    if Sanitize(tx.message, 0).None? && budget.Ok? {
      SaneHasPayer(tx.message);
      LoadedConservation(env, tx, accounts, budget.value.computeUnitLimit);
    }
  }

  /** A successful transaction paid for its signatures and for every instruction, within its
      limit, and none of its instructions went to a reserved program. */
  lemma {:induction false} SuccessIsMetered(env: Env, tx: Transaction, accounts: seq<Account>, skip: bool)
    requires WellBehaved(env) && Handled(tx.message) && |accounts| == |tx.message.accountKeys|
    requires ExecuteOn(env, tx, accounts, skip).status.None?
    ensures var r, msg := ExecuteOn(env, tx, accounts, skip), tx.message;
            && env.parseBudget(msg).Ok?
            && msg.numRequiredSignatures * SIGNATURE_VERIFY_COST + CostFrom(BaseCosts(msg), 0) <= r.computeUnits
            && r.computeUnits <= env.parseBudget(msg).value.computeUnitLimit
            && forall t :: 0 <= t < |msg.instructions| ==> !NamesReserved(env, msg, t)
  {
    hide Changed, Balances, ByKey, CheckInvariants;
    var msg, limit := tx.message, env.parseBudget(tx.message).value.computeUnitLimit;
    SaneHasPayer(msg);
    var sig := Consume(Machine(Charge(accounts, Fee(env, msg)), limit),
        msg.numRequiredSignatures * SIGNATURE_VERIFY_COST);
    RunIsMetered(env, msg, sig.machine, 0);
  }

  /** Writing deltas over a map: later ones win. */
  function ApplyDeltas(m: map<Address, Account>, deltas: seq<(Address, Account)>): (r: map<Address, Account>) {
    if |deltas| == 0 then m else
      var n := |deltas| - 1;
      ApplyDeltas(m, deltas[..n])[deltas[n].0 := deltas[n].1]
  }

  /** What a reader finds at an address after the write. */
  lemma {:induction false} ApplyDeltasAt(m: map<Address, Account>, deltas: seq<(Address, Account)>, a: Address)
    requires DistinctKeys(deltas)
    ensures (forall t :: 0 <= t < |deltas| ==> deltas[t].0 != a) ==>
              (a in ApplyDeltas(m, deltas) <==> a in m) && (a in m ==> ApplyDeltas(m, deltas)[a] == m[a])
    ensures forall t :: 0 <= t < |deltas| && deltas[t].0 == a ==>
              a in ApplyDeltas(m, deltas) && ApplyDeltas(m, deltas)[a] == deltas[t].1
  {
    if |deltas| == 0 {
    } else {
      ApplyDeltasAt(m, deltas[..|deltas| - 1], a);
    }
  }

  /** The accounts at the transaction's keys once its deltas are written. */
  function Committed(keys: seq<Address>, accounts: seq<Account>, deltas: seq<(Address, Account)>): (r: seq<Account>)
    requires |keys| == |accounts|
  {
    Snapshot(ApplyDeltas(ByKey(keys, accounts), deltas), map[], keys)
  }

  lemma {:induction false} CommittedAt(keys: seq<Address>, accounts: seq<Account>, deltas: seq<(Address, Account)>,
      i: nat)
    requires |keys| == |accounts| && Distinct(keys) && DistinctKeys(deltas) && i < |keys|
    ensures (forall t :: 0 <= t < |deltas| ==> deltas[t].0 != keys[i]) ==>
              Committed(keys, accounts, deltas)[i] == accounts[i]
    ensures forall t :: 0 <= t < |deltas| && deltas[t].0 == keys[i] ==>
              Committed(keys, accounts, deltas)[i] == deltas[t].1
  {
    ApplyDeltasAt(ByKey(keys, accounts), deltas, keys[i]);
  }

  lemma {:induction false} CommittedChange(keys: seq<Address>, accounts: seq<Account>, pre: seq<Account>,
      post: seq<Account>, i: nat)
    requires |keys| == |accounts| == |pre| == |post| && Distinct(keys) && i < |keys|
    ensures Committed(keys, accounts, Changed(keys, pre, post))[i] == if post[i] != pre[i] then post[i] else accounts[i]
  {
    var d, at := Changed(keys, pre, post), ChangedAt(pre, post, |pre|);
    CommittedAt(keys, accounts, d, i);
    if post[i] != pre[i] {
      var t :| 0 <= t < |at| && at[t] == i;
      assert d[t] == (keys[i], post[i]);
    } else {
      assert forall t :: 0 <= t < |d| ==> at[t] != i;
    }
  }

  /** After a success the written accounts are the final ones, except that a payer the
      instructions left alone keeps the balance it had before the fee. */
  lemma {:induction false} CommittedOnSuccess(keys: seq<Address>, accounts: seq<Account>, fee: nat, post: seq<Account>)
    requires |keys| == |accounts| == |post| > 0 && Distinct(keys) && fee <= accounts[0].lamports
    ensures Committed(keys, accounts, Changed(keys, Charge(accounts, fee), post))
         == if post[0] != Charge(accounts, fee)[0] then post else post[0 := accounts[0]]
  {
    var charged := Charge(accounts, fee);
    var d := Changed(keys, charged, post);
    var expected := if post[0] != charged[0] then post else post[0 := accounts[0]];
    forall i | 0 <= i < |keys| ensures Committed(keys, accounts, d)[i] == expected[i] {
      CommittedChange(keys, accounts, charged, post, i);
    }
  }

  lemma {:induction false} CommittedOnPayer(keys: seq<Address>, accounts: seq<Account>, payer: Account)
    requires |keys| == |accounts| > 0 && Distinct(keys)
    ensures Committed(keys, accounts, [(keys[0], payer)]) == accounts[0 := payer]
  {
    forall i | 0 <= i < |keys|
      ensures Committed(keys, accounts, [(keys[0], payer)])[i] == accounts[0 := payer][i]
    {
      CommittedAt(keys, accounts, [(keys[0], payer)], i);
    }
  }

  /** How the run of a charged transaction ends, a stale blockhash included. */
  function ChargedEnding(env: Env, msg: Message, charged: seq<Account>, limit: nat): (r: Processed)
    requires WellBehaved(env)
    ensures |r.machine.accounts| == |charged|
  {
    if Recent(env, msg) then Ending(env, msg, charged, limit)
    else Processed(Machine(charged, limit), Some(BlockhashNotFound))
  }

  /** The written accounts lose exactly the fee if and only if the transaction succeeded
      and its instructions changed the payer (or there is no fee), or it failed with the
      payer's balance still the charged one.  In the other cases the fee is taken from a
      copy that is never written (success), or the payer is written with one half of a
      transfer whose other half is dropped (failure). */
  lemma {:induction false} FeeReachesState(env: Env, tx: Transaction, accounts: seq<Account>, limit: nat)
    requires WellBehaved(env) && |accounts| == |tx.message.accountKeys| > 0 && Distinct(tx.message.accountKeys)
    requires accounts[0].lamports >= Fee(env, tx.message)
    ensures var r, charged := ExecuteLoaded(env, tx, accounts, limit), Charge(accounts, Fee(env, tx.message));
            var p := ChargedEnding(env, tx.message, charged, limit);
            && r.fee == Fee(env, tx.message)
            && (Total(Committed(tx.message.accountKeys, accounts, r.deltas)) + r.fee == Total(accounts) <==>
                if p.outcome.None? then r.fee == 0 || p.machine.accounts[0] != charged[0]
                else p.machine.accounts[0].lamports == charged[0].lamports)
  {
    var fee, keys := Fee(env, tx.message), tx.message.accountKeys;
    var charged := Charge(accounts, fee);
    var p := ChargedEnding(env, tx.message, charged, limit);
    if p.outcome.Some? {
      PayerOnlyTotal(keys, accounts, fee, p.machine.accounts[0]);
    } else {
      SuccessTotal(keys, accounts, fee, p.machine.accounts);
    }
  }

  lemma {:induction false} PayerOnlyTotal(keys: seq<Address>, accounts: seq<Account>, fee: nat, payer: Account)
    requires |keys| == |accounts| > 0 && Distinct(keys) && fee <= accounts[0].lamports
    ensures Total(Committed(keys, accounts, [(keys[0], payer)])) + fee == Total(accounts)
            <==> payer.lamports == Charge(accounts, fee)[0].lamports
  {
    CommittedOnPayer(keys, accounts, payer);
    TotalUpdate(accounts, 0, payer);
  }

  lemma {:induction false} SuccessTotal(keys: seq<Address>, accounts: seq<Account>, fee: nat, post: seq<Account>)
    requires |keys| == |accounts| == |post| > 0 && Distinct(keys) && fee <= accounts[0].lamports
    requires Total(Charge(accounts, fee)) == Total(post)
    ensures Total(Committed(keys, accounts, Changed(keys, Charge(accounts, fee), post))) + fee == Total(accounts)
            <==> fee == 0 || post[0] != Charge(accounts, fee)[0]
  {
    ChargeTotal(accounts, fee);
    CommittedOnSuccess(keys, accounts, fee, post);
    TotalUpdate(post, 0, accounts[0]);
  }

  // ---------------------------------------------------------------------------------
  // Transactions whose fee and written balances part

  function Holding(lamports: U64): (r: Account) {
    Account(lamports, [], ZERO_ADDRESS, false, 0)
  }

  /** One lamport per signature at slot 0, where the zero blockhash counts as recent; the
      default budget, which messages without budget instructions get. */
  function GenesisEnv(process: (Message, Address, seq<U8>, seq<U8>, Machine) -> Processed): (env: Env) {
    Env(0, 1, {}, {}, _ => Ok(ComputeBudget(200_000, 65_536)), process)
  }

  /** A transaction without instructions succeeds and reports its fee, and writes nothing:
      the payer keeps all ten lamports. */
  lemma {:induction false} ReportedFeeNeverTaken()
    ensures var env := GenesisEnv(Idle);
            var tx := Transaction(1, Message(1, 0, 0, [7], ZERO_ADDRESS, []), true);
            && WellBehaved(env)
            && var r := ExecuteOn(env, tx, [Holding(10)], true);
               r.status.None? && r.fee == 1 && r.deltas == [] && r.postBalances == [9]
  {
    hide ByKey, RunFrom;
    var env, accounts := GenesisEnv(Idle), [Holding(10)];
    var tx := Transaction(1, Message(1, 0, 0, [7], ZERO_ADDRESS, []), true);
    assert DataSize(accounts, 1) == 0;
    LoadOutcomeMeaning([7], accounts, 65_536);
    var charged := Charge(accounts, 1);
    assert charged == [Holding(9)];
    assert RunFrom(env, tx.message, Machine(charged, 198_000), 0) == Processed(Machine(charged, 198_000), None) by {
      TraceRuns(env, tx.message, 0, [Machine(charged, 198_000)], Processed(Machine(charged, 198_000), None));
    }
    var p := Ending(env, tx.message, charged, 200_000);
    assert p.machine.accounts == charged && p.outcome.None?;
    assert ChangedAt(charged, charged, 1) == [];
  }

  const SYSTEM_TRANSFER_COST: nat := 450

  function WithLamports(accounts: seq<Account>, i: nat, lamports: U64): (r: seq<Account>)
    requires i < |accounts|
    ensures |r| == |accounts|
  {
    accounts[i := accounts[i].(lamports := lamports)]
  }

  /** Why an account cannot be written, if it cannot. */
  function WriteRefused(msg: Message, accounts: seq<Account>, i: nat): (r: Option<RuntimeError>)
    ensures r.None? ==> i < |accounts|
  {
    if i >= |accounts| then Some(AccountNotFound(i))
    else if !msg.IsWritable(i) then Some(AccountNotWritable(i))
    else None
  }

  /** The system program's transfer (runtime/src/processors/system.rs) of as many lamports as
      the single data byte says: it debits the first account and then credits the second. */
  function SystemTransfer(msg: Message, id: Address, indices: seq<U8>, data: seq<U8>, m: Machine): (r: Processed) {
    if |data| != 1 then Processed(m, Some(InvalidInstructionData(0))) else
      var paid := Consume(m, SYSTEM_TRANSFER_COST);
      if paid.outcome.Some? then paid
      else if |indices| < 2 then Processed(paid.machine, Some(InvalidInstructionData(0)))
      else Transfer(msg, indices[0], indices[1], data[0], paid.machine)
  }

  function Transfer(msg: Message, from: nat, to: nat, lamports: nat, m: Machine): (r: Processed)
    ensures |r.machine.accounts| == |m.accounts| && r.machine.remaining == m.remaining
  {
    var accounts := m.accounts;
    if from >= |accounts| then Processed(m, Some(AccountNotFound(from)))
    else if !msg.IsSigner(from) then Processed(m, Some(AccountNotSigner(from)))
    else if WriteRefused(msg, accounts, from).Some? then Processed(m, WriteRefused(msg, accounts, from))
    else if accounts[from].lamports < lamports then
      Processed(m, Some(InsufficientFunds(lamports, accounts[from].lamports)))
    else
      var debited := WithLamports(accounts, from, accounts[from].lamports - lamports);
      if WriteRefused(msg, debited, to).Some? then
        Processed(m.(accounts := debited), WriteRefused(msg, debited, to))
      else if debited[to].lamports + lamports > U64_MAX then
        Processed(m.(accounts := debited), Some(LamportsOverflow))
      else Processed(m.(accounts := WithLamports(debited, to, debited[to].lamports + lamports)), None)
  }

  /** Sends a lamport from the payer to an account that the message may only read. */
  const HALF_TRANSFER := Message(1, 0, 2, [7, 8, 9], ZERO_ADDRESS, [CompiledInstruction(2, [0, 1], [1])])

  lemma {:induction false} HalfTransferEnds(charged: seq<Account>)
    requires charged == [Holding(9), Holding(0), Holding(0)]
    ensures var env := GenesisEnv(SystemTransfer);
            && WellBehaved(env)
            && var p := Ending(env, HALF_TRANSFER, charged, 200_000);
               p.outcome == Some(AccountNotWritable(1)) && p.machine.accounts[0] == Holding(8)
  {
    hide CheckInvariants;
    var env, msg, m := GenesisEnv(SystemTransfer), HALF_TRANSFER, Machine(charged, 198_000);
    assert Consume(Machine(charged, 200_000), 2000) == Processed(m, None);
    var p := Dispatch(env, msg, 9, [0, 1], [1], m);
    assert msg.IsSigner(0) && msg.IsWritable(0) && !msg.IsWritable(1);
    assert p.outcome == Some(AccountNotWritable(1)) && p.machine.accounts[0] == Holding(8);
    assert RunFrom(env, msg, m, 0) == p;
  }

  /** A transfer that is refused when it comes to the credit writes the payer without the
      lamport it sent, and nobody with it. */
  lemma {:induction false} HalfTransferWritten()
    ensures var env, tx := GenesisEnv(SystemTransfer), Transaction(1, HALF_TRANSFER, true);
            && WellBehaved(env)
            && var r := ExecuteOn(env, tx, [Holding(10), Holding(0), Holding(0)], true);
               r.status == Some(AccountNotWritable(1)) && r.fee == 1 && r.deltas == [(7, Holding(8))]
  {
    hide SystemTransfer, Ending, Balances, ByKey;
    var env, accounts := GenesisEnv(SystemTransfer), [Holding(10), Holding(0), Holding(0)];
    assert InBounds(HALF_TRANSFER, 0);
    assert DataSize(accounts, 1) == DataSize(accounts, 2) == DataSize(accounts, 3) == 0;
    LoadOutcomeMeaning([7, 8, 9], accounts, 65_536);
    assert Charge(accounts, 1) == [Holding(9), Holding(0), Holding(0)];
    HalfTransferEnds(Charge(accounts, 1));
  }

  /** What the account at position `i` holds once the payer is charged. */
  function HeldAfterFee(accounts: seq<Account>, fee: nat, i: nat): (r: int)
    requires i < |accounts|
  {
    accounts[i].lamports - if i == 0 then fee else 0
  }

  lemma {:induction false} ChargedHolds(accounts: seq<Account>, fee: nat, i: nat)
    requires |accounts| > 0 && fee <= accounts[0].lamports
    ensures i < |accounts| ==>
              0 <= HeldAfterFee(accounts, fee, i) <= U64_MAX
              && Charge(accounts, fee)[i] == accounts[i].(lamports := HeldAfterFee(accounts, fee, i))
  {
  }

  /** The message asks the system program for one transfer. */
  ghost predicate IsTransfer(env: Env, msg: Message, p: U8, f: U8, t: U8, x: U8) {
    env.process == SystemTransfer && msg.instructions == [CompiledInstruction(p, [f, t], [x])]
  }

  lemma {:induction false} TransferEnds(env: Env, msg: Message, charged: seq<Account>, limit: nat, p: U8, f: U8, t: U8,
      x: U8)
    requires WellBehaved(env) && IsTransfer(env, msg, p, f, t, x) && |charged| == |msg.accountKeys|
    requires Ending(env, msg, charged, limit).outcome.None?
    ensures f < |charged| && t < |charged| && x <= charged[f].lamports
    ensures var debited := WithLamports(charged, f, charged[f].lamports - x);
            && debited[t].lamports + x <= U64_MAX
            && Ending(env, msg, charged, limit).machine.accounts == WithLamports(debited, t, debited[t].lamports + x)
  {
    hide CheckInvariants;
    var sig := Consume(Machine(charged, limit), msg.numRequiredSignatures * SIGNATURE_VERIFY_COST);
    var run := RunFrom(env, msg, sig.machine, 0);
    var ms := RunTrace(env, msg, sig.machine, 0);
    assert Steps(env, msg, 0 + 0, ms[0], ms[0 + 1]);
  }

  /** A success writes what its run changed after the charge. */
  lemma {:induction false} SuccessWrites(env: Env, tx: Transaction, accounts: seq<Account>, skip: bool)
    requires WellBehaved(env) && Handled(tx.message) && |accounts| == |tx.message.accountKeys|
    requires ExecuteOn(env, tx, accounts, skip).status.None?
    ensures env.parseBudget(tx.message).Ok? && |accounts| > 0 && Fee(env, tx.message) <= accounts[0].lamports
    ensures var r, charged := ExecuteOn(env, tx, accounts, skip), Charge(accounts, Fee(env, tx.message));
            var p := Ending(env, tx.message, charged, env.parseBudget(tx.message).value.computeUnitLimit);
            && r.fee == Fee(env, tx.message) && p.outcome.None?
            && r.deltas == Changed(tx.message.accountKeys, charged, p.machine.accounts)
  {
    hide Changed, Balances, ByKey, Ending, LoadOutcome, Fee;
    SaneHasPayer(tx.message);
  }

  /** The deltas of a transfer of `x` lamports: nothing if it moves nothing, and otherwise the
      debited and the credited account; the fee is off the payer already. */
  ghost predicate MovesLamports(keys: seq<Address>, accounts: seq<Account>, fee: nat, f: nat, t: nat, x: nat,
      deltas: seq<(Address, Account)>)
    requires |keys| == |accounts|
  {
    && f < |keys| && t < |keys| && x <= HeldAfterFee(accounts, fee, f)
    && if f == t || x == 0 then deltas == [] else
         && 0 <= HeldAfterFee(accounts, fee, t) + x <= U64_MAX && HeldAfterFee(accounts, fee, f) <= U64_MAX
         && var debited := accounts[f].(lamports := HeldAfterFee(accounts, fee, f) - x);
            var credited := accounts[t].(lamports := HeldAfterFee(accounts, fee, t) + x);
            forall d :: d in deltas <==> d == (keys[f], debited) || d == (keys[t], credited)
  }

  lemma {:induction false} ChargedTransfer(keys: seq<Address>, accounts: seq<Account>, fee: nat, post: seq<Account>,
      f: nat, t: nat, x: nat)
    requires |keys| == |accounts| > 0 && fee <= accounts[0].lamports && f < |keys| && t < |keys|
    requires var charged := Charge(accounts, fee);
             && x <= charged[f].lamports
             && var debited := WithLamports(charged, f, charged[f].lamports - x);
                debited[t].lamports + x <= U64_MAX && post == WithLamports(debited, t, debited[t].lamports + x)
    ensures MovesLamports(keys, accounts, fee, f, t, x, Changed(keys, Charge(accounts, fee), post))
  {
    var charged := Charge(accounts, fee);
    ChargedHolds(accounts, fee, f);
    ChargedHolds(accounts, fee, t);
    hide Charge, Changed, HeldAfterFee, WithLamports;
    TransferChanges(keys, charged, post, f, t, x, (keys[f], charged[f]));
    if f == t || x == 0 {
      NothingChanged(keys, charged);
    } else {
      var debited := accounts[f].(lamports := HeldAfterFee(accounts, fee, f) - x);
      var credited := accounts[t].(lamports := HeldAfterFee(accounts, fee, t) + x);
      forall d: (Address, Account)
        ensures d in Changed(keys, charged, post) <==> d == (keys[f], debited) || d == (keys[t], credited)
      {
        TransferChanges(keys, charged, post, f, t, x, d);
      }
    }
  }

  /** A transfer that succeeds writes exactly the account it debits and the account it
      credits. */
  lemma {:induction false} TransferWrites(env: Env, tx: Transaction, accounts: seq<Account>, skip: bool, p: U8, f: U8,
      t: U8, x: U8)
    requires WellBehaved(env) && Handled(tx.message) && |accounts| == |tx.message.accountKeys|
    requires IsTransfer(env, tx.message, p, f, t, x) && ExecuteOn(env, tx, accounts, skip).status.None?
    ensures var r := ExecuteOn(env, tx, accounts, skip);
            MovesLamports(tx.message.accountKeys, accounts, r.fee, f, t, x, r.deltas)
  {
    hide *;
    SuccessWrites(env, tx, accounts, skip);
    var msg, fee := tx.message, Fee(env, tx.message);
    var charged, limit := Charge(accounts, fee), env.parseBudget(msg).value.computeUnitLimit;
    TransferEnds(env, msg, charged, limit, p, f, t, x);
    ChargedTransfer(msg.accountKeys, accounts, fee, Ending(env, msg, charged, limit).machine.accounts, f, t, x);
  }

  /** The changes list exactly the positions that differ. */
  lemma {:induction false} ChangedAre(keys: seq<Address>, pre: seq<Account>, post: seq<Account>, d: (Address, Account))
    requires |pre| == |post| == |keys|
    ensures d in Changed(keys, pre, post) <==>
              exists i :: 0 <= i < |pre| && post[i] != pre[i] && d == (keys[i], post[i])
  {
    var at, changed := ChangedAt(pre, post, |pre|), Changed(keys, pre, post);
    hide ChangedAt, Changed;
    if d in changed {
      var k :| 0 <= k < |changed| && changed[k] == d;
      assert post[at[k]] != pre[at[k]];
    }
    if i :| 0 <= i < |pre| && post[i] != pre[i] && d == (keys[i], post[i]) {
      var k :| 0 <= k < |at| && at[k] == i;
      assert changed[k] == d;
    }
  }

  lemma {:induction false} TransferChanges(keys: seq<Address>, pre: seq<Account>, post: seq<Account>, f: nat, t: nat,
      x: nat, d: (Address, Account))
    requires |keys| == |pre| && f < |pre| && t < |pre| && x <= pre[f].lamports
    requires var debited := WithLamports(pre, f, pre[f].lamports - x);
             debited[t].lamports + x <= U64_MAX && post == WithLamports(debited, t, debited[t].lamports + x)
    ensures if f == t || x == 0 then post == pre else
              && pre[t].lamports + x <= U64_MAX
              && (d in Changed(keys, pre, post) <==>
                    || d == (keys[f], pre[f].(lamports := pre[f].lamports - x))
                    || d == (keys[t], pre[t].(lamports := pre[t].lamports + x)))
  {
    hide Changed;
    ChangedAre(keys, pre, post, d);
    if f != t && x > 0 {
      assert post[f] == pre[f].(lamports := pre[f].lamports - x) != pre[f];
      assert post[t] == pre[t].(lamports := pre[t].lamports + x) != pre[t];
    }
  }

  lemma {:induction false} NothingChanged(keys: seq<Address>, accounts: seq<Account>)
    requires |keys| == |accounts|
    ensures Changed(keys, accounts, accounts) == []
  {
    NoneChanged(accounts, |accounts|);
  }

  lemma {:induction false} NoneChanged(accounts: seq<Account>, n: nat)
    requires n <= |accounts|
    ensures ChangedAt(accounts, accounts, n) == []
  {
    if n == 0 {
    } else {
      NoneChanged(accounts, n - 1);
    }
  }

  // ---------------------------------------------------------------------------------
  // Which outcome is reported

  /** Instruction `i` is the first whose program or accounts are out of bounds. */
  ghost predicate FirstUnsound(msg: Message, i: nat) {
    i < |msg.instructions| && !InBounds(msg, i) && forall j :: 0 <= j < i ==> InBounds(msg, j)
  }

  lemma {:induction false} SanitizeFirst(msg: Message, i: nat)
    requires i <= |msg.instructions| && Sanitize(msg, i).Some? && forall j :: 0 <= j < i ==> InBounds(msg, j)
    ensures exists k :: FirstUnsound(msg, k) && Sanitize(msg, i) == Some(InvalidInstructionData(k))
    decreases |msg.instructions| - i
  {
    if i < |msg.instructions| {
      if InBounds(msg, i) {
        SanitizeFirst(msg, i + 1);
      } else {
        assert FirstUnsound(msg, i);
      }
    }
  }

  /** Nothing was charged, run or written. */
  ghost predicate Untouched(r: TxResult) {
    r.status.Some? && r.fee == 0 && r.computeUnits == 0 && r.deltas == [] && r.postBalances == r.preBalances
  }

  /** The error a transaction is refused with before its fee is taken, the first of these that
      applies: an instruction out of bounds, a bad signature, a budget that does not parse,
      accounts that cannot be loaded, a payer that cannot pay. */
  ghost predicate RefusedFor(env: Env, tx: Transaction, accounts: seq<Account>, skip: bool, e: RuntimeError)
    requires |accounts| == |tx.message.accountKeys|
  {
    var msg := tx.message;
    if exists i :: FirstUnsound(msg, i) then exists i :: FirstUnsound(msg, i) && e == InvalidInstructionData(i)
    else if !skip && !tx.signaturesValid then e == SignatureVerificationFailed
    else if env.parseBudget(msg).Err? then e == env.parseBudget(msg).error
    else
      var limit := env.parseBudget(msg).value.dataSizeLimit;
      if !Distinct(msg.accountKeys) || DataSize(accounts, |accounts|) > limit then
        LoadFails(msg.accountKeys, accounts, limit, e)
      else |accounts| > 0 && accounts[0].lamports < Fee(env, msg)
           && e == InsufficientFunds(Fee(env, msg), accounts[0].lamports)
  }

  /** Every transaction is refused for such an error, without effect, or charged the fee of its
      signatures; then it reports the balances it found, the balances its run left, the units
      its run took and the error its run ended with, a stale blockhash included. */
  lemma {:induction false} Outcome(env: Env, tx: Transaction, accounts: seq<Account>, skip: bool)
    requires WellBehaved(env) && Handled(tx.message) && |accounts| == |tx.message.accountKeys|
    ensures var r, msg := ExecuteOn(env, tx, accounts, skip), tx.message;
            && r.txHash == tx.hash
            && if exists e :: RefusedFor(env, tx, accounts, skip, e)
               then Untouched(r) && RefusedFor(env, tx, accounts, skip, r.status.value)
               else
                 && |accounts| > 0 && env.parseBudget(msg).Ok? && Fee(env, msg) <= accounts[0].lamports
                 && var limit := env.parseBudget(msg).value.computeUnitLimit;
                    var p := ChargedEnding(env, msg, Charge(accounts, Fee(env, msg)), limit);
                    && r.fee == Fee(env, msg) && r.status == p.outcome && r.computeUnits == limit - p.machine.remaining
                    && r.preBalances == Balances(accounts) && r.postBalances == Balances(p.machine.accounts)
  {
    hide Ending, Changed, ByKey, Balances, LoadOutcome, Fee;
    var msg := tx.message;
    if Sanitize(msg, 0).Some? {
      SanitizeFirst(msg, 0);
      assert RefusedFor(env, tx, accounts, skip, Sanitize(msg, 0).value);
    } else {
      SaneHasPayer(msg);
      assert forall i :: !FirstUnsound(msg, i);
      if !skip && !tx.signaturesValid {
        assert RefusedFor(env, tx, accounts, skip, SignatureVerificationFailed);
      } else if env.parseBudget(msg).Err? {
        assert RefusedFor(env, tx, accounts, skip, env.parseBudget(msg).error);
      } else {
        var limit := env.parseBudget(msg).value.dataSizeLimit;
        LoadOutcomeMeaning(msg.accountKeys, accounts, limit);
        var failure := LoadOutcome(msg.accountKeys, accounts, limit);
        if failure.Some? {
          assert RefusedFor(env, tx, accounts, skip, failure.value);
        } else if accounts[0].lamports < Fee(env, msg) {
          assert RefusedFor(env, tx, accounts, skip, InsufficientFunds(Fee(env, msg), accounts[0].lamports));
        }
      }
    }
  }

  /** The fee is a rate per signature, capped at 64 bits. */
  lemma {:induction false} FeeIsPerSignature(env: Env, msg: Message)
    ensures Fee(env, msg) <= U64_MAX && Fee(env, msg) <= env.lamportsPerSignature * msg.numRequiredSignatures
    ensures Fee(env, msg) == env.lamportsPerSignature * msg.numRequiredSignatures || Fee(env, msg) == U64_MAX
  {
  }
}
