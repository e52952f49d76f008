/** The transaction executor in its own form: loops over keys and instructions, and a
    context object whose accounts and meter the instructions change. */
module TransactionExecutor {
  import opened Crypto
  import opened Messages
  import opened Transactions

  // ---------------------------------------------------------------------------------
  // Loading

  lemma {:induction false} NoEarlierRepeat(keys: seq<Address>, i: nat, j: nat)
    requires j < i <= |keys| && Distinct(keys[..i])
    ensures keys[j] !in keys[..j]
  {
    forall t | 0 <= t < j ensures keys[..j][t] != keys[j] {
      assert keys[..i][t] != keys[..i][j];
    }
  }

  lemma {:induction false} FirstRepeatIs(keys: seq<Address>, i: nat)
    requires i < |keys| && Distinct(keys[..i]) && keys[i] in keys[..i]
    ensures FirstRepeat(keys, 0) == i
  {
    var j := FirstRepeat(keys, 0);
    if j < i { NoEarlierRepeat(keys, i, j); }
    if j > i { NoEarlierRepeat(keys, j, i); }
  }

  method FindRepeat(keys: seq<Address>) returns (j: nat)
    ensures j == FirstRepeat(keys, 0)
  {
    var seen: set<Address> := {};
    for i := 0 to |keys|
      invariant Distinct(keys[..i])
      invariant forall k :: k in seen <==> k in keys[..i]
    {
      if keys[i] in seen {
        FirstRepeatIs(keys, i);
        return i;
      }
      seen := seen + {keys[i]};
      assert keys[..i + 1] == keys[..i] + [keys[i]];
    }
    assert keys[..|keys|] == keys;
    j := |keys|;
  }

  /** Reads every key through the cache, refusing repeated keys and too much data. */
  method LoadAccounts(cache: map<Address, Account>, storage: map<Address, Account>, keys: seq<Address>, limit: nat)
    returns (r: Result<seq<Account>, RuntimeError>)
    ensures var accounts := Snapshot(cache, storage, keys);
            var failure := LoadOutcome(keys, accounts, limit);
            r == if failure.Some? then Err(failure.value) else Ok(accounts)
  {
    hide Position, FirstRepeat, FirstOversize, DataSize;
    var j := FindRepeat(keys);
    if j < |keys| {
      return Err(AccountIndexAliasing(Position(keys, keys[j]), j));
    }
    r := ReadAccounts(cache, storage, keys, limit);
  }

  method ReadAccounts(cache: map<Address, Account>, storage: map<Address, Account>, keys: seq<Address>, limit: nat)
    returns (r: Result<seq<Account>, RuntimeError>)
    ensures var all := Snapshot(cache, storage, keys);
            var n := FirstOversize(all, limit, 0);
            r == if n < |all| then Err(LoadedAccountsDataSizeExceeded(DataSize(all, n + 1), limit)) else Ok(all)
  {
    hide View;
    ghost var all := Snapshot(cache, storage, keys);
    var accounts, size := [], 0;
    for i := 0 to |keys|
      invariant accounts == all[..i] && size == DataSize(all, i) <= limit
      invariant FirstOversize(all, limit, 0) == FirstOversize(all, limit, i)
    {
      var account := View(cache, storage, keys[i]);
      size := size + |account.data|;
      if size > limit {
        return Err(LoadedAccountsDataSizeExceeded(size, limit));
      }
      accounts := accounts + [account];
    }
    assert all[..|keys|] == all;
    r := Ok(accounts);
  }

  // ---------------------------------------------------------------------------------
  // The context object

  class TransactionContext {
    var accounts: seq<Account>
    var remaining: nat
    const preAccounts: seq<Account>
    const message: Message
    const limit: nat

    ghost predicate Valid()
      reads this
    {
      |accounts| == |preAccounts| == |message.accountKeys| && remaining <= limit
    }

    ghost function Contents(): Machine
      reads this
    {
      Machine(accounts, remaining)
    }

    constructor (loaded: seq<Account>, msg: Message, computeLimit: nat)
      requires |loaded| == |msg.accountKeys|
      ensures Valid() && Contents() == Machine(loaded, computeLimit)
      ensures preAccounts == loaded && message == msg && limit == computeLimit
    {
      accounts, preAccounts, message, remaining, limit := loaded, loaded, msg, computeLimit, computeLimit;
    }

    method ConsumeCompute(units: nat) returns (e: Option<RuntimeError>)
      requires Valid()
      modifies this
      ensures Valid() && Processed(Contents(), e) == Consume(old(Contents()), units)
    {
      if units > remaining {
        e := Some(InsufficientComputeUnits(units, remaining));
        remaining := 0;
      } else {
        e := None;
        remaining := remaining - units;
      }
    }

    method DispatchInstruction(env: Env, id: Address, indices: seq<U8>, data: seq<U8>) returns (e: Option<RuntimeError>)
      requires Valid() && WellBehaved(env)
      modifies this
      ensures Valid() && Processed(Contents(), e) == Dispatch(env, message, id, indices, data, old(Contents()))
    {
      e := ConsumeCompute(INSTRUCTION_BASE_COST + |data| * INSTRUCTION_DATA_BYTE_COST);
      if e.Some? {
        return;
      }
      if id in env.reserved {
        return Some(UnknownProgram);
      }
      var p := env.process(message, id, indices, data, Machine(accounts, remaining));
      accounts, remaining, e := p.machine.accounts, p.machine.remaining, p.outcome;
    }

    /** Runs the instructions in order, each on what the ones before it left, up to the first
        error. */
    method ExecuteInstructions(env: Env) returns (e: Option<RuntimeError>, ghost ms: seq<Machine>)
      requires Valid() && WellBehaved(env)
      modifies this
      ensures Valid() && Processed(Contents(), e) == RunFrom(env, message, old(Contents()), 0)
      ensures Trace(env, message, 0, ms) && ms[0] == old(Contents())
      ensures EndsIn(env, message, 0, ms, Processed(Contents(), e))
    {
      hide Trace, EndsIn;
      ms := RunTrace(env, message, Contents(), 0);
      for i := 0 to |message.instructions|
        invariant Valid()
        invariant RunFrom(env, message, old(Contents()), 0) == RunFrom(env, message, Contents(), i)
      {
        var ix := message.instructions[i];
        if ix.programIdIndex >= |message.accountKeys| {
          return Some(InvalidInstructionData(i)), ms;
        }
        e := DispatchInstruction(env, message.accountKeys[ix.programIdIndex], ix.accounts, ix.data);
        if e.Some? {
          return;
        }
      }
      e := None;
    }

    method VerifyInvariants() returns (e: Option<RuntimeError>)
      requires Valid()
      ensures e == CheckInvariants(message, preAccounts, accounts)
    {
      if Total(preAccounts) != Total(accounts) {
        return Some(LamportsOverflow);
      }
      for i := 0 to |accounts|
        invariant FirstReadonlyChange(message, preAccounts, accounts, 0) ==
                  FirstReadonlyChange(message, preAccounts, accounts, i)
      {
        if !message.IsWritable(i) && accounts[i] != preAccounts[i] {
          return Some(ReadonlyAccountModified(i));
        }
      }
      for i := 0 to |accounts|
        invariant forall k :: 0 <= k < i ==> preAccounts[k].executable ==> accounts[k].executable
      {
        if preAccounts[i].executable && !accounts[i].executable {
          return Some(ExecutableAccountModified);
        }
      }
      e := None;
    }
  }

  /** One transaction, from the cache and storage a slot hands it. */
  method ExecuteTransaction(env: Env, tx: Transaction, cache: map<Address, Account>, storage: map<Address, Account>,
      skipSignatures: bool)
    returns (r: TxResult)
    requires WellBehaved(env) && Handled(tx.message)
    ensures r == ExecuteOn(env, tx, Snapshot(cache, storage, tx.message.accountKeys), skipSignatures)
  {
    var msg := tx.message;
    var bad := Sanitize(msg, 0);
    if bad.Some? {
      return Rejected(tx.hash, bad.value);
    }
    SaneHasPayer(msg);
    if !skipSignatures && !tx.signaturesValid {
      return Rejected(tx.hash, SignatureVerificationFailed);
    }
    var budget := env.parseBudget(msg);
    if budget.Err? {
      return Rejected(tx.hash, budget.error);
    }
    var limit := budget.value.computeUnitLimit;
    var fee := Fee(env, msg);
    var outcome := LoadAccounts(cache, storage, msg.accountKeys, budget.value.dataSizeLimit);
    if outcome.Err? {
      return Rejected(tx.hash, outcome.error);
    }
    r := ExecuteWithAccounts(env, tx, outcome.value, fee, limit);
  }

  /** The executor from the fee on. */
  method ExecuteWithAccounts(env: Env, tx: Transaction, loaded: seq<Account>, fee: nat, limit: nat)
    returns (r: TxResult)
    requires WellBehaved(env) && |loaded| == |tx.message.accountKeys| > 0 && fee == Fee(env, tx.message)
    ensures r == ExecuteLoaded(env, tx, loaded, limit)
  {
    var msg := tx.message;
    var before := ByKey(msg.accountKeys, loaded);
    var accounts := loaded;
    if accounts[0].lamports < fee {
      return TxResult(tx.hash, Some(InsufficientFunds(fee, accounts[0].lamports)), 0, 0, [], Balances(loaded),
          Balances(loaded), before);
    }
    accounts := accounts[0 := accounts[0].(lamports := accounts[0].lamports - fee)];
    if !Recent(env, msg) {
      return TxResult(tx.hash, Some(BlockhashNotFound), fee, 0, [(msg.accountKeys[0], accounts[0])],
                      Balances(loaded), Balances(accounts), before);
    }
    var ctx := new TransactionContext(accounts, msg, limit);
    var e := ctx.ConsumeCompute(msg.numRequiredSignatures * SIGNATURE_VERIFY_COST);
    if e.None? {
      ghost var ms;
      e, ms := ctx.ExecuteInstructions(env);
    }
    if e.None? {
      e := ctx.VerifyInvariants();
    }
    var consumed := limit - ctx.remaining;
    if e.Some? {
      r := TxResult(tx.hash, e, fee, consumed, [(msg.accountKeys[0], ctx.accounts[0])],
                    Balances(loaded), Balances(ctx.accounts), before);
    } else {
      r := TxResult(tx.hash, None, fee, consumed, Changed(msg.accountKeys, ctx.preAccounts, ctx.accounts),
                    Balances(loaded), Balances(ctx.accounts), before);
    }
  }
}
