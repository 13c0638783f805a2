/** The ledger transition: what a block does to the accounts. */
module Ledger {
  import opened Words
  import opened Types
  import opened TxRules
  import opened Monetary

  /** The accounts as left behind, with the error that stopped the block, if any.
      A block that fails part way leaves its earlier transactions applied. */
  datatype Applied = Applied(state: State, error: Option<Error>)

  function Lookup(st: State, a: string): Account {
    if a in st then st[a] else Account(0, 0)
  }

  function Credit(st: State, a: string, amount: u64): State {
    var acct := Lookup(st, a);
    st[a := acct.(balance := AddU64(acct.balance, amount))]
  }

  /** A transfer by `from`: nonce and funds checks, then debit, then credit.
      The recipient is read after the debit is stored, so paying oneself only costs the fee. */
  function ApplyTransfer(st: State, from: string, tx: Transaction): Applied {
    var acct := Lookup(st, from);
    var debit := AddU64(tx.amount, tx.fee);
    if AddU64(acct.nonce, 1) != tx.nonce then Applied(st, Some(BadNonce))
    else if acct.balance < debit then Applied(st, Some(InsufficientFunds))
    else Applied(Credit(st[from := Account(acct.balance - debit, tx.nonce)], tx.toAddress, tx.amount), None)
  }

  /** Transaction `i` of a block of height `h`. */
  function ApplyTx(c: Config, st: State, tx: Transaction, i: nat, h: u64): Applied {
    match tx.kind
    case Coinbase =>
      if i != 0 then Applied(st, Some(CoinbaseNotFirst))
      else
        var e := VerifyTx(c, tx, h);
        if e.Some? then Applied(st, e) else Applied(Credit(st, tx.toAddress, tx.amount), None)
    case Transfer =>
      var e := VerifyTx(c, tx, h);
      if e.Some? then Applied(st, e) else ApplyTransfer(st, Sender(c.env, tx), tx)
    case OtherType(_) => Applied(st, Some(UnknownTxType))
  }

  /** Transactions `i` onwards; the first error stops. */
  function ApplyTxs(c: Config, st: State, txs: seq<Transaction>, i: nat, h: u64): Applied
    requires i <= |txs|
    decreases |txs| - i
  {
    if i == |txs| then Applied(st, None)
    else
      var r := ApplyTx(c, st, txs[i], i, h);
      if r.error.Some? then r else ApplyTxs(c, r.state, txs, i + 1, h)
  }

  /** Fees of the transfers from position `i` on, as a mathematical sum. */
  function FeesFrom(txs: seq<Transaction>, i: nat): nat
    decreases |txs| - i
  {
    if i >= |txs| then 0
    else (if txs[i].kind.Transfer? then txs[i].fee else 0) + FeesFrom(txs, i + 1)
  }

  /** What the coinbase of a block must pay: subsidy plus the miner's share of the (wrapped) fee sum. */
  function ExpectedCoinbase(m: MonetaryPolicy, h: u64, fees: nat): u64 {
    AddU64(BlockReward(m, h), MinerFeeAmount(m, fees % TWO64))
  }

  /** Checks made before any account is touched. */
  function BlockPrecheck(c: Config, b: Block): (e: Option<Error>)
    ensures e.None? ==> |b.txs| > 0 && b.txs[0].kind.Coinbase?
    ensures e.None? && b.height > 0 ==>
              && b.txs[0].toAddress == b.miner
              && b.txs[0].amount == ExpectedCoinbase(c.params.policy, b.height, FeesFrom(b.txs, 1))
  {
    if c.params.maxBlockSize > 0 && c.env.blockSize(b) > c.params.maxBlockSize then Some(BlockTooLarge)
    else if |b.txs| == 0 then Some(NoTransactions)
    else if !b.txs[0].kind.Coinbase? then Some(FirstNotCoinbase)
    else if b.height == 0 then None
    else if !c.env.validAddress(b.miner) then Some(BadMinerAddress)
    else if b.txs[0].toAddress != b.miner then Some(CoinbaseNotToMiner)
    else if b.txs[0].amount != ExpectedCoinbase(c.params.policy, b.height, FeesFrom(b.txs, 1)) then
      Some(BadCoinbaseAmount)
    else None
  }

  function ApplyBlock(c: Config, st: State, b: Block): Applied {
    var e := BlockPrecheck(c, b);
    if e.Some? then Applied(st, e) else ApplyTxs(c, st, b.txs, 0, b.height)
  }

  /** Replay of a chain from no accounts at all, stopping at the first bad block. */
  function ApplyBlocks(c: Config, blocks: seq<Block>): Applied {
    if blocks == [] then Applied(map[], None)
    else
      var r := ApplyBlocks(c, blocks[..|blocks| - 1]);
      if r.error.Some? then r else ApplyBlock(c, r.state, blocks[|blocks| - 1])
  }

  lemma WrapStep(acc: u64, fee: u64, rest: nat)
    ensures (AddU64(acc, fee) + rest) % TWO64 == (acc + fee + rest) % TWO64
  {
    if acc + fee >= TWO64 {
      assert (acc + fee - TWO64 + rest) % TWO64 == (acc + fee + rest) % TWO64;
    }
  }

  /** The uint64 running total of the fees after the coinbase. */
  method SumFees(txs: seq<Transaction>) returns (fees: u64)
    requires |txs| > 0
    ensures fees == FeesFrom(txs, 1) % TWO64
  {
    fees := 0;
    for i := 1 to |txs|
      invariant (fees + FeesFrom(txs, i)) % TWO64 == FeesFrom(txs, 1) % TWO64
    {
      if txs[i].kind == Transfer {
        WrapStep(fees, txs[i].fee, FeesFrom(txs, i + 1));
        fees := AddU64(fees, txs[i].fee);
      }
    }
  }

  /** The size, coinbase and subsidy checks that come before any account is touched. */
  method CheckBlock(c: Config, b: Block) returns (error: Option<Error>)
    ensures error == BlockPrecheck(c, b)
  {
    if c.params.maxBlockSize > 0 {
      var size := c.env.blockSize(b);
      if size > c.params.maxBlockSize { return Some(BlockTooLarge); }
    }
    if |b.txs| == 0 { return Some(NoTransactions); }
    if b.txs[0].kind != Coinbase { return Some(FirstNotCoinbase); }
    if b.height > 0 {
      if !c.env.validAddress(b.miner) { return Some(BadMinerAddress); }
      var fees := SumFees(b.txs);
      var cb := b.txs[0];
      if cb.toAddress != b.miner { return Some(CoinbaseNotToMiner); }
      var expected := AddU64(BlockReward(c.params.policy, b.height), MinerFeeAmount(c.params.policy, fees));
      if cb.amount != expected { return Some(BadCoinbaseAmount); }
    }
    return None;
  }

  /** One transaction: the account map is written as soon as its checks pass. */
  method ApplyTransaction(c: Config, state0: State, tx: Transaction, i: nat, h: u64)
    returns (state: State, error: Option<Error>)
    ensures Applied(state, error) == ApplyTx(c, state0, tx, i, h)
  {
    state := state0;
    match tx.kind {
      case Coinbase =>
        if i != 0 { return state, Some(CoinbaseNotFirst); }
        var e := VerifyTx(c, tx, h);
        if e.Some? { return state, e; }
        var acct := Lookup(state, tx.toAddress);
        acct := acct.(balance := AddU64(acct.balance, tx.amount));
        state := state[tx.toAddress := acct];
      case Transfer =>
        var e := VerifyTx(c, tx, h);
        if e.Some? { return state, e; }
        var fromAddr := Sender(c.env, tx);
        var from := Lookup(state, fromAddr);
        if AddU64(from.nonce, 1) != tx.nonce { return state, Some(BadNonce); }
        var totalDebit := AddU64(tx.amount, tx.fee);
        if from.balance < totalDebit { return state, Some(InsufficientFunds); }
        from := Account(from.balance - totalDebit, tx.nonce);
        state := state[fromAddr := from];
        var to := Lookup(state, tx.toAddress);
        to := to.(balance := AddU64(to.balance, tx.amount));
        state := state[tx.toAddress := to];
      case OtherType(_) =>
        return state, Some(UnknownTxType);
    }
    return state, None;
  }

  /** The loop over the transactions: the accounts are changed as they pass, error or not. */
  method ApplyTransactions(c: Config, state0: State, txs: seq<Transaction>, h: u64)
    returns (state: State, error: Option<Error>)
    ensures Applied(state, error) == ApplyTxs(c, state0, txs, 0, h)
  {
    state := state0;
    for i := 0 to |txs|
      invariant ApplyTxs(c, state, txs, i, h) == ApplyTxs(c, state0, txs, 0, h)
    {
      state, error := ApplyTransaction(c, state, txs[i], i, h);
      if error.Some? { return; }
    }
    return state, None;
  }

  /** applyBlockToState */
  method ApplyBlockToState(c: Config, state0: State, b: Block) returns (state: State, error: Option<Error>)
    ensures Applied(state, error) == ApplyBlock(c, state0, b)
  {
    error := CheckBlock(c, b);
    if error.Some? { return state0, error; }
    state, error := ApplyTransactions(c, state0, b.txs, b.height);
  }

  /** recomputeStateLocked: replay from the empty map, keeping what was applied before an error. */
  method RecomputeState(c: Config, blocks: seq<Block>) returns (state: State, error: Option<Error>)
    ensures Applied(state, error) == ApplyBlocks(c, blocks)
  {
    state := map[];
    for i := 0 to |blocks|
      invariant Applied(state, None) == ApplyBlocks(c, blocks[..i])
    {
      state, error := ApplyBlockToState(c, state, blocks[i]);
      assert blocks[..i + 1][..i] == blocks[..i];
      if error.Some? {
        StopsAtError(c, blocks, i + 1);
        return;
      }
    }
    assert blocks[..|blocks|] == blocks;
    return state, None;
  }

  lemma {:induction false} ApplyOneMore(c: Config, st: State, txs: seq<Transaction>, t: Transaction, i: nat, h: u64)
    requires i <= |txs| && ApplyTxs(c, st, txs, i, h).error.None?
    ensures ApplyTxs(c, st, txs + [t], i, h) == ApplyTx(c, ApplyTxs(c, st, txs, i, h).state, t, |txs|, h)
    decreases |txs| - i
  {
    if i < |txs| {
      assert (txs + [t])[i] == txs[i];
      ApplyOneMore(c, ApplyTx(c, st, txs[i], i, h).state, txs, t, i + 1, h);
    } else {
      assert (txs + [t])[i] == t;
      var r := ApplyTx(c, st, t, i, h);
      assert r.error.None? ==> ApplyTxs(c, r.state, txs + [t], i + 1, h) == r;
    }
  }

  /** Whatever applies as a whole applies without its last transaction. */
  lemma {:induction false} ApplyAllButLast(c: Config, st: State, txs: seq<Transaction>, t: Transaction, i: nat, h: u64)
    requires i <= |txs| && ApplyTxs(c, st, txs + [t], i, h).error.None?
    ensures ApplyTxs(c, st, txs, i, h).error.None?
    decreases |txs| - i
  {
    if i < |txs| {
      assert (txs + [t])[i] == txs[i];
      ApplyAllButLast(c, ApplyTx(c, st, txs[i], i, h).state, txs, t, i + 1, h);
    }
  }

  lemma LastApplied(c: Config, blocks: seq<Block>)
    requires blocks != [] && ApplyBlocks(c, blocks).error.None?
    ensures ApplyBlocks(c, blocks[..|blocks| - 1]).error.None?
    ensures ApplyBlock(c, ApplyBlocks(c, blocks[..|blocks| - 1]).state, blocks[|blocks| - 1])
            == Applied(ApplyBlocks(c, blocks).state, None)
  {
  }

  lemma {:induction false} StopsAtError(c: Config, blocks: seq<Block>, k: nat)
    requires k <= |blocks| && ApplyBlocks(c, blocks[..k]).error.Some?
    ensures ApplyBlocks(c, blocks) == ApplyBlocks(c, blocks[..k])
    decreases |blocks|
  {
    if k == |blocks| {
      assert blocks[..k] == blocks;
    } else {
      var init := blocks[..|blocks| - 1];
      assert init[..k] == blocks[..k];
      StopsAtError(c, init, k);
    }
  }
}
