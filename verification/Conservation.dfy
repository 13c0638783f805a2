/** Money: what a chain mints, burns and can never exceed. */
module Conservation {
  import opened Words
  import opened Types
  import opened TxRules
  import opened Monetary
  import opened Ledger

  /** Sum of all balances, unbounded. */
  ghost function Total(st: State): nat {
    if st == map[] then 0
    else
      var a :| a in st;
      st[a].balance + Total(st - {a})
  }

  lemma {:induction false} TotalRemove(st: State, a: string)
    requires a in st
    ensures Total(st) == st[a].balance + Total(st - {a})
    decreases |st|
  {
    var x :| x in st && Total(st) == st[x].balance + Total(st - {x});
    if x != a {
      TotalRemove(st - {x}, a);
      TotalRemove(st - {a}, x);
      assert st - {x} - {a} == st - {a} - {x};
    }
  }

  lemma TotalUpdate(st: State, a: string, acct: Account)
    ensures Total(st[a := acct]) == Total(st) - Lookup(st, a).balance + acct.balance
  {
    TotalRemove(st[a := acct], a);
    if a in st {
      TotalRemove(st, a);
      assert st[a := acct] - {a} == st - {a};
    } else {
      assert st[a := acct] - {a} == st;
    }
  }

  lemma BalanceBelowTotal(st: State, a: string)
    ensures Lookup(st, a).balance <= Total(st)
  {
    if a in st { TotalRemove(st, a); }
  }

  lemma CreditTotal(st: State, a: string, amount: u64)
    ensures Total(Credit(st, a, amount)) ==
            Total(st) + amount - (if Lookup(st, a).balance + amount >= TWO64 then TWO64 else 0)
  {
    TotalUpdate(st, a, Lookup(st, a).(balance := AddU64(Lookup(st, a).balance, amount)));
  }

  predicate DebitWraps(tx: Transaction) {
    tx.amount + tx.fee >= TWO64
  }

  /** The accounts between debit and credit. */
  function Debited(st: State, from: string, tx: Transaction): State
    requires Lookup(st, from).balance >= AddU64(tx.amount, tx.fee)
  {
    st[from := Account(Lookup(st, from).balance - AddU64(tx.amount, tx.fee), tx.nonce)]
  }

  predicate CreditWraps(st: State, from: string, tx: Transaction)
    requires Lookup(st, from).balance >= AddU64(tx.amount, tx.fee)
  {
    Lookup(Debited(st, from, tx), tx.toAddress).balance + tx.amount >= TWO64
  }

  /** Who an accepted transfer touches, and how: the sender pays amount and fee and takes the nonce, the recipient
      gains the amount, paying oneself costs the fee (modulo 2^64), and nobody else moves. */
  lemma TransferMoves(st: State, from: string, tx: Transaction, a: string)
    requires ApplyTransfer(st, from, tx).error.None?
    ensures var before, after := Lookup(st, a), Lookup(ApplyTransfer(st, from, tx).state, a);
            if a == from && a == tx.toAddress then after == Account((before.balance - tx.fee) % TWO64, tx.nonce)
            else if a == from then after == Account((before.balance - tx.amount - tx.fee) % TWO64, tx.nonce)
            else if a == tx.toAddress then after == Account((before.balance + tx.amount) % TWO64, before.nonce)
            else after == before
  {
  }

  /** What an accepted transfer does to the sum of balances, wrap-arounds and self-transfers included. */
  lemma TransferTotal(st: State, from: string, tx: Transaction)
    requires ApplyTransfer(st, from, tx).error.None?
    ensures Total(ApplyTransfer(st, from, tx).state) ==
            Total(st) - tx.fee + (if DebitWraps(tx) then TWO64 else 0)
                - (if CreditWraps(st, from, tx) then TWO64 else 0)
  {
    TotalUpdate(st, from, Account(Lookup(st, from).balance - AddU64(tx.amount, tx.fee), tx.nonce));
    CreditTotal(Debited(st, from, tx), tx.toAddress, tx.amount);
  }

  /** An accepted transfer destroys exactly its fee if and only if debit and credit wrap together or not at all. */
  lemma TransferConserves(st: State, from: string, tx: Transaction)
    requires ApplyTransfer(st, from, tx).error.None?
    ensures Total(ApplyTransfer(st, from, tx).state) == Total(st) - tx.fee
            <==> (DebitWraps(tx) <==> CreditWraps(st, from, tx))
  {
    TransferTotal(st, from, tx);
  }

  /** While the sum of balances fits 64 bits, a debit that does not wrap keeps the credit from wrapping. */
  lemma NoCreditWrap(st: State, from: string, tx: Transaction)
    requires ApplyTransfer(st, from, tx).error.None?
    requires Total(st) < TWO64 && !DebitWraps(tx)
    ensures !CreditWraps(st, from, tx)
    ensures Total(ApplyTransfer(st, from, tx).state) == Total(st) - tx.fee
  {
    TotalUpdate(st, from, Account(Lookup(st, from).balance - AddU64(tx.amount, tx.fee), tx.nonce));
    BalanceBelowTotal(Debited(st, from, tx), tx.toAddress);
    TransferTotal(st, from, tx);
  }

  /** Where it goes wrong: amount and fee that add up to 2^64 cost the sender nothing, and the amount appears from
      nowhere. */
  lemma WrappedDebitInflates(st: State, from: string, tx: Transaction)
    requires tx.amount + tx.fee == TWO64 && tx.nonce == AddU64(Lookup(st, from).nonce, 1)
    requires tx.toAddress != from && Lookup(st, tx.toAddress).balance == 0
    ensures var r := ApplyTransfer(st, from, tx);
            && r.error.None?
            && Lookup(r.state, from).balance == Lookup(st, from).balance
            && Lookup(r.state, tx.toAddress).balance == tx.amount
            && Total(r.state) == Total(st) + tx.amount
  {
    TransferTotal(st, from, tx);
  }

  /** With no money anywhere, one such transfer of the largest amount makes 2^64 - 1 units. */
  lemma MoneyFromNothing(from: string, tx: Transaction)
    requires tx.amount == TWO64 - 1 && tx.fee == 1 && tx.nonce == 1 && tx.toAddress != from
    ensures ApplyTransfer(map[], from, tx).error.None?
    ensures Total(map[]) == 0 && Total(ApplyTransfer(map[], from, tx).state) == TWO64 - 1
  {
    WrappedDebitInflates(map[], from, tx);
  }

  // ----- counting the wraps -----

  /** A debit that wraps adds 2^64 to the sum of balances, a credit that wraps takes it away. */
  ghost function TransferWraps(env: Env, st: State, tx: Transaction): int {
    match FromAddress(env, tx)
    case None => 0
    case Some(from) =>
      if Lookup(st, from).balance < AddU64(tx.amount, tx.fee) then 0
      else (if DebitWraps(tx) then 1 else 0) - (if CreditWraps(st, from, tx) then 1 else 0)
  }

  ghost function TransfersWraps(c: Config, st: State, txs: seq<Transaction>, i: nat, h: u64): int
    decreases |txs| - i
  {
    if i >= |txs| then 0
    else TransferWraps(c.env, st, txs[i]) + TransfersWraps(c, ApplyTx(c, st, txs[i], i, h).state, txs, i + 1, h)
  }

  ghost function BlockWraps(c: Config, st: State, b: Block): int
    requires |b.txs| > 0
  {
    var cb := b.txs[0];
    TransfersWraps(c, Credit(st, cb.toAddress, cb.amount), b.txs, 1, b.height)
    - (if Lookup(st, cb.toAddress).balance + cb.amount >= TWO64 then 1 else 0)
  }

  lemma LaterTxApplied(c: Config, st: State, tx: Transaction, i: nat, h: u64)
    requires i > 0 && ApplyTx(c, st, tx, i, h).error.None?
    ensures tx.kind.Transfer? && KeyOk(tx) && ApplyTx(c, st, tx, i, h) == ApplyTransfer(st, Sender(c.env, tx), tx)
  {
  }

  lemma LaterTxTotal(c: Config, st: State, tx: Transaction, i: nat, h: u64)
    requires i > 0 && ApplyTx(c, st, tx, i, h).error.None?
    ensures Total(ApplyTx(c, st, tx, i, h).state) == Total(st) - tx.fee + TWO64 * TransferWraps(c.env, st, tx)
  {
    LaterTxApplied(c, st, tx, i, h);
    TransferTotal(st, Sender(c.env, tx), tx);
  }

  /** Transfers `i` onwards remove their fees, and 2^64 for every net wrap. */
  lemma {:induction false} TransfersTotal(c: Config, st: State, txs: seq<Transaction>, i: nat, h: u64)
    requires 1 <= i <= |txs| && ApplyTxs(c, st, txs, i, h).error.None?
    ensures Total(ApplyTxs(c, st, txs, i, h).state)
            == Total(st) - FeesFrom(txs, i) + TWO64 * TransfersWraps(c, st, txs, i, h)
    decreases |txs| - i
  {
    if i < |txs| {
      LaterTxTotal(c, st, txs[i], i, h);
      TransfersTotal(c, ApplyTx(c, st, txs[i], i, h).state, txs, i + 1, h);
    }
  }

  ghost predicate NoDebitWraps(txs: seq<Transaction>) {
    forall i :: 0 <= i < |txs| && txs[i].kind.Transfer? ==> !DebitWraps(txs[i])
  }

  lemma {:induction false} TransfersTotalExact(c: Config, st: State, txs: seq<Transaction>, i: nat, h: u64)
    requires 1 <= i <= |txs| && ApplyTxs(c, st, txs, i, h).error.None?
    requires NoDebitWraps(txs) && Total(st) < TWO64
    ensures Total(ApplyTxs(c, st, txs, i, h).state) == Total(st) - FeesFrom(txs, i)
    decreases |txs| - i
  {
    if i < |txs| {
      NoCreditWrap(st, Sender(c.env, txs[i]), txs[i]);
      TransfersTotalExact(c, ApplyTx(c, st, txs[i], i, h).state, txs, i + 1, h);
    }
  }

  /** An accepted block adds its coinbase and removes its fees, and 2^64 for every net wrap. */
  lemma BlockTotal(c: Config, st: State, b: Block)
    requires ApplyBlock(c, st, b).error.None?
    ensures |b.txs| > 0
    ensures Total(ApplyBlock(c, st, b).state)
            == Total(st) + b.txs[0].amount - FeesFrom(b.txs, 1) + TWO64 * BlockWraps(c, st, b)
  {
    var cb := b.txs[0];
    CreditTotal(st, cb.toAddress, cb.amount);
    TransfersTotal(c, Credit(st, cb.toAddress, cb.amount), b.txs, 1, b.height);
  }

  lemma BlockTotalExact(c: Config, st: State, b: Block)
    requires ApplyBlock(c, st, b).error.None?
    requires |b.txs| > 0 && NoDebitWraps(b.txs) && Total(st) + b.txs[0].amount < TWO64
    ensures Total(ApplyBlock(c, st, b).state) == Total(st) + b.txs[0].amount - FeesFrom(b.txs, 1)
  {
    var cb := b.txs[0];
    BalanceBelowTotal(st, cb.toAddress);
    CreditTotal(st, cb.toAddress, cb.amount);
    TransfersTotalExact(c, Credit(st, cb.toAddress, cb.amount), b.txs, 1, b.height);
  }

  // ----- whole chains -----

  /** A chain as the fork-choice rule accepts it: heights count up from a genesis that only allocates the supply. */
  ghost predicate ChainShape(path: seq<Block>) {
    && 0 < |path| <= TWO64
    && |path[0].txs| == 1
    && forall i :: 0 <= i < |path| ==> path[i].height == i
  }

  ghost function Minted(c: Config, path: seq<Block>): nat
    requires ChainShape(path)
  {
    if |path| == 1 then path[0].txs[0].amount
    else Minted(c, path[..|path| - 1]) + BlockReward(c.params.policy, path[|path| - 1].height)
  }

  /** Fees not handed to the miner. */
  ghost function BurnedBy(c: Config, b: Block): int {
    FeesFrom(b.txs, 1) - MinerFeeAmount(c.params.policy, FeesFrom(b.txs, 1) % TWO64)
  }

  ghost function Burned(c: Config, path: seq<Block>): int
    requires ChainShape(path)
  {
    if |path| == 1 then 0 else Burned(c, path[..|path| - 1]) + BurnedBy(c, path[|path| - 1])
  }

  lemma GenesisTotal(c: Config, path: seq<Block>)
    requires ChainShape(path) && |path| == 1 && ApplyBlocks(c, path).error.None?
    ensures Total(ApplyBlocks(c, path).state) == path[0].txs[0].amount
  {
    var g := path[0];
    assert ApplyBlocks(c, path[..0]) == Applied(map[], None);
    assert ApplyBlocks(c, path) == ApplyBlock(c, map[], g);
    BlockTotalExact(c, map[], g);
  }

  /** One when subsidy and fee share do not fit the coinbase amount. */
  ghost function RewardWraps(c: Config, b: Block): int {
    if BlockReward(c.params.policy, b.height) + MinerFeeAmount(c.params.policy, FeesFrom(b.txs, 1) % TWO64) >= TWO64
        then 1 else 0
  }

  /** Debit wraps minus credit, coinbase and reward wraps along a chain. */
  ghost function NetWraps(c: Config, path: seq<Block>): int {
    if |path| <= 1 then 0
    else
      var n := |path| - 1;
      NetWraps(c, path[..n]) - RewardWraps(c, path[n])
      + (if path[n].txs == [] then 0 else BlockWraps(c, ApplyBlocks(c, path[..n]).state, path[n]))
  }

  /** On every accepted chain balances are minted minus burned plus 2^64 for every net wrap. No hypothesis on
      wrap-around. */
  lemma {:induction false} SupplyWithWraps(c: Config, path: seq<Block>)
    requires ChainShape(path) && ApplyBlocks(c, path).error.None?
    ensures Total(ApplyBlocks(c, path).state) == Minted(c, path) - Burned(c, path) + TWO64 * NetWraps(c, path)
    decreases |path|
  {
    if |path| == 1 {
      GenesisTotal(c, path);
    } else {
      var n := |path| - 1;
      LastApplied(c, path);
      SupplyWithWraps(c, path[..n]);
      BlockTotal(c, ApplyBlocks(c, path[..n]).state, path[n]);
      CoinbasePays(c, ApplyBlocks(c, path[..n]).state, path[n]);
    }
  }

  /** The coinbase of an accepted block pays subsidy and fee share, less 2^64 when they wrap. */
  lemma CoinbasePays(c: Config, st: State, b: Block)
    requires ApplyBlock(c, st, b).error.None? && b.height > 0
    ensures |b.txs| > 0
    ensures b.txs[0].amount - FeesFrom(b.txs, 1)
            == BlockReward(c.params.policy, b.height) - BurnedBy(c, b) - TWO64 * RewardWraps(c, b)
  {
  }

  /** Conservation is exact if and only if the wraps cancel out. */
  lemma ConservesIff(c: Config, path: seq<Block>)
    requires ChainShape(path) && ApplyBlocks(c, path).error.None?
    ensures Total(ApplyBlocks(c, path).state) == Minted(c, path) - Burned(c, path) <==> NetWraps(c, path) == 0
  {
    SupplyWithWraps(c, path);
  }

  /** No debit overflows, and neither does everything minted so far with the miner's share of the newest fees. */
  ghost predicate NoWrap(c: Config, path: seq<Block>)
    requires ChainShape(path)
  {
    forall i :: 0 < i < |path| ==>
                  && NoDebitWraps(path[i].txs)
                  && Minted(c, path[..i + 1])
                     + MinerFeeAmount(c.params.policy, FeesFrom(path[i].txs, 1) % TWO64) < TWO64
  }

  lemma {:induction false} BurnedNonNegative(c: Config, path: seq<Block>)
    requires ChainShape(path) && c.params.policy.minerFeeShare <= 100
    ensures Burned(c, path) >= 0
    decreases |path|
  {
    if |path| > 1 {
      var n := |path| - 1;
      var fees := FeesFrom(path[n].txs, 1);
      BurnedNonNegative(c, path[..n]);
      MinerFeeShareBound(c.params.policy, fees % TWO64);
      ModNoGreater(fees);
    }
  }

  lemma PrefixNoWrap(c: Config, path: seq<Block>)
    requires ChainShape(path) && NoWrap(c, path) && |path| > 1
    ensures NoWrap(c, path[..|path| - 1])
  {
    var q := path[..|path| - 1];
    forall i | 0 < i < |q| ensures q[..i + 1] == path[..i + 1] && q[i] == path[i] {}
  }

  /** Exact conservation: the balances of an accepted chain add up to supply plus subsidies minus burned fees. */
  lemma {:induction false} SupplyExact(c: Config, path: seq<Block>)
    requires ChainShape(path) && ApplyBlocks(c, path).error.None?
    requires c.params.policy.minerFeeShare <= 100 && NoWrap(c, path)
    ensures Total(ApplyBlocks(c, path).state) == Minted(c, path) - Burned(c, path)
    decreases |path|
  {
    if |path| == 1 {
      GenesisTotal(c, path);
    } else {
      var n := |path| - 1;
      LastApplied(c, path);
      PrefixNoWrap(c, path);
      SupplyExact(c, path[..n]);
      BurnedNonNegative(c, path[..n]);
      assert path[..n + 1] == path;
      CoinbasePays(c, ApplyBlocks(c, path[..n]).state, path[n]);
      BlockTotalExact(c, ApplyBlocks(c, path[..n]).state, path[n]);
    }
  }

  lemma {:induction false} MintedIsRewards(c: Config, path: seq<Block>)
    requires ChainShape(path)
    ensures Minted(c, path)
            == path[0].txs[0].amount + RewardsBelow(c.params.policy, |path|) - RewardsBelow(c.params.policy, 1)
    decreases |path|
  {
    if |path| > 1 { MintedIsRewards(c, path[..|path| - 1]); }
  }

  ghost function SupplyBound(m: MonetaryPolicy, initialSupply: nat): nat {
    initialSupply + m.halvingInterval * (2 * m.initialBlockReward + 64)
  }

  /** Supply cap: without tail emission the balances never exceed a bound fixed by the genesis parameters. */
  lemma SupplyCap(c: Config, path: seq<Block>)
    requires ChainShape(path) && ApplyBlocks(c, path).error.None?
    requires PolicyOk(c.params.policy) && c.params.policy.tailEmission == 0 && NoWrap(c, path)
    ensures Total(ApplyBlocks(c, path).state) <= SupplyBound(c.params.policy, path[0].txs[0].amount)
  {
    SupplyExact(c, path);
    BurnedNonNegative(c, path);
    MintedCap(c, path);
  }

  lemma MintedCap(c: Config, path: seq<Block>)
    requires ChainShape(path) && PolicyOk(c.params.policy) && c.params.policy.tailEmission == 0
    ensures Minted(c, path) <= SupplyBound(c.params.policy, path[0].txs[0].amount)
  {
    MintedIsRewards(c, path);
    RewardCap(c.params.policy, |path|);
  }
}
