/** What an accepted transaction, block and chain must satisfy, stated apart from the checks that decide it. */
module Acceptance {
  import opened Words
  import opened Types
  import opened Encoding
  import opened TxRules
  import opened Monetary
  import opened Ledger
  import opened NoReplay
  import opened Pow
  import opened NodeRules
  import opened Commitments

  // ----- blocks in the ledger -----

  /** Size, coinbase and miner of a block. */
  ghost predicate WellFormed(c: Config, b: Block) {
    && (c.params.maxBlockSize > 0 ==> c.env.blockSize(b) <= c.params.maxBlockSize)
    && b.txs != [] && b.txs[0].kind.Coinbase?
    && (b.height > 0 ==>
          && c.env.validAddress(b.miner) && b.txs[0].toAddress == b.miner
          && b.txs[0].amount == (BlockReward(c.params.policy, b.height)
                                 + MinerFeeAmount(c.params.policy, FeesFrom(b.txs, 1) % TWO64)) % TWO64)
  }

  lemma PrecheckIff(c: Config, b: Block)
    ensures BlockPrecheck(c, b).None? <==> WellFormed(c, b)
  {
  }

  /** The accounts before transaction `i`. */
  ghost function StateBefore(c: Config, st: State, txs: seq<Transaction>, i: nat, h: u64): State
    requires i <= |txs|
  {
    ApplyTxs(c, st, txs[..i], 0, h).state
  }

  /** The sender's next nonce, and money for amount and fee. */
  ghost predicate Payable(env: Env, st: State, tx: Transaction) {
    && KeyOk(tx)
    && tx.nonce == (Lookup(st, env.addressOf(tx.fromPubKey.value)).nonce + 1) % TWO64
    && Lookup(st, env.addressOf(tx.fromPubKey.value)).balance >= (tx.amount + tx.fee) % TWO64
  }

  /** Transaction `i` of a block goes through: the first may be a coinbase, every transfer must be payable. */
  ghost predicate GoesThrough(c: Config, st: State, tx: Transaction, i: nat, h: u64) {
    Acceptable(c, tx, h) && if tx.kind.Coinbase? then i == 0 else Payable(c.env, st, tx)
  }

  lemma TxIff(c: Config, st: State, tx: Transaction, i: nat, h: u64)
    ensures ApplyTx(c, st, tx, i, h).error.None? <==> GoesThrough(c, st, tx, i, h)
  {
    VerifyTxIff(c, tx, h);
  }

  ghost predicate GoesThroughAt(c: Config, st: State, txs: seq<Transaction>, i: nat, h: u64)
    requires i < |txs|
  {
    GoesThrough(c, StateBefore(c, st, txs, i, h), txs[i], i, h)
  }

  lemma NextIff(c: Config, st: State, txs: seq<Transaction>, n: nat, h: u64)
    requires n < |txs|
    ensures ApplyTxs(c, st, txs[..n + 1], 0, h).error.None? <==>
            ApplyTxs(c, st, txs[..n], 0, h).error.None? && GoesThroughAt(c, st, txs, n, h)
  {
    var init, t := txs[..n], txs[n];
    assert txs[..n + 1] == init + [t];
    if ApplyTxs(c, st, init, 0, h).error.None? {
      ApplyOneMore(c, st, init, t, 0, h);
      TxIff(c, StateBefore(c, st, txs, n, h), t, n, h);
    } else if ApplyTxs(c, st, txs[..n + 1], 0, h).error.None? {
      ApplyAllButLast(c, st, init, t, 0, h);
    }
  }

  lemma {:induction false} TxsIff(c: Config, st: State, txs: seq<Transaction>, n: nat, h: u64)
    requires n <= |txs|
    ensures ApplyTxs(c, st, txs[..n], 0, h).error.None? <==> AllGoThrough(c, st, txs, n, h)
  {
    if n > 0 {
      TxsIff(c, st, txs, n - 1, h);
      NextIff(c, st, txs, n - 1, h);
      OneMoreGoes(c, st, txs, n - 1, h);
    }
  }

  ghost predicate AllGoThrough(c: Config, st: State, txs: seq<Transaction>, n: nat, h: u64)
    requires n <= |txs|
  {
    forall i :: 0 <= i < n ==> GoesThroughAt(c, st, txs, i, h)
  }

  lemma OneMoreGoes(c: Config, st: State, txs: seq<Transaction>, n: nat, h: u64)
    requires n < |txs|
    ensures AllGoThrough(c, st, txs, n + 1, h) <==> AllGoThrough(c, st, txs, n, h) && GoesThroughAt(c, st, txs, n, h)
  {
  }

  /** The ledger takes a block exactly when it is well formed and every transaction goes through on the accounts that
      those before it leave. */
  lemma BlockIff(c: Config, st: State, b: Block)
    ensures ApplyBlock(c, st, b).error.None? <==>
            WellFormed(c, b) && AllGoThrough(c, st, b.txs, |b.txs|, b.height)
  {
    PrecheckIff(c, b);
    TxsIff(c, st, b.txs, |b.txs|, b.height);
    assert b.txs[..|b.txs|] == b.txs;
  }

  // ----- admission -----

  /** The transaction is for this chain; a missing chain id reads as the node's own. */
  ghost predicate ForChain(c: Config, tx: Transaction, h: u64) {
    (tx.chainId == 0 || tx.chainId == c.chainId) && Acceptable(c, tx.(chainId := c.chainId), h)
  }

  lemma {:induction false} CheckTxsIff(c: Config, txs: seq<Transaction>, i: nat, h: u64)
    ensures CheckTxs(c, txs, i, h).None? <==> forall j :: i <= j < |txs| ==> ForChain(c, txs[j], h)
    decreases |txs| - i
  {
    if i < |txs| {
      VerifyTxIff(c, txs[i].(chainId := c.chainId), h);
      assert txs[i].chainId == c.chainId ==> txs[i].(chainId := c.chainId) == txs[i];
      CheckTxsIff(c, txs, i + 1, h);
    }
  }

  /** The block carries its proof of work: its hash is that of its header, and hash times work is below 2^256. */
  ghost predicate ProvesWork(c: Config, b: Block) {
    && 0 < b.bits <= 256 && HeaderOf(c, b, b.nonce).Some? && b.hash == c.env.sha(HeaderOf(c, b, b.nonce).value)
    && FromBE(b.hash) * WorkForBits(b.bits) < Pow2(256)
  }

  /** A block is admitted exactly when it is no genesis, of the version of its height, carries its proof of work, and
      all its transactions are for this chain. */
  lemma AdmissionIff(c: Config, b: Block)
    ensures Admission(c, b).None? <==>
            && b.height > 0 && ProvesWork(c, b)
            && b.version == (if c.params.merkleEnable && b.height >= c.params.merkleActivationHeight then 2 else 1)
            && forall j :: 0 <= j < |b.txs| ==> ForChain(c, b.txs[j], b.height)
  {
    CheckTxsIff(c, b.txs, 0, b.height);
    if 0 < b.bits <= MAX_DIFFICULTY_BITS { ValidatePowIff(c, b); }
  }

  /** What the miner takes: transfers for this chain that pay a fee. */
  lemma {:induction false} CheckTransfersIff(c: Config, txs: seq<Transaction>, i: nat, h: u64)
    ensures CheckTransfers(c, txs, i, h).None? <==>
            forall j :: i <= j < |txs| ==> txs[j].kind.Transfer? && ForChain(c, txs[j], h) && txs[j].fee > 0
    decreases |txs| - i
  {
    if i < |txs| {
      VerifyTxIff(c, txs[i].(chainId := c.chainId), h);
      assert txs[i].chainId == c.chainId ==> txs[i].(chainId := c.chainId) == txs[i];
      CheckTransfersIff(c, txs, i + 1, h);
    }
  }

  /** An admitted block that the ledger takes names this chain in every transaction. */
  lemma OwnChainOnly(c: Config, st: State, b: Block, j: nat)
    requires Admission(c, b).None? && ApplyBlock(c, st, b).error.None? && j < |b.txs|
    ensures b.txs[j].chainId == c.chainId
  {
    AdmissionIff(c, b);
    BlockIff(c, st, b);
    assert ForChain(c, b.txs[j], b.height) && GoesThroughAt(c, st, b.txs, j, b.height);
  }

  // ----- chains -----

  /** A transfer signed with a key whose address is `a`. */
  ghost predicate AuthorizedBy(c: Config, tx: Transaction, h: u64, a: string) {
    tx.kind.Transfer? && Signed(c, tx, h) && c.env.addressOf(tx.fromPubKey.value) == a
  }

  /** Every transaction but the coinbase in front is a signed transfer. */
  ghost predicate TransfersSigned(c: Config, b: Block) {
    forall j :: 0 < j < |b.txs| ==> b.txs[j].kind.Transfer? && Signed(c, b.txs[j], b.height)
  }

  lemma BlockIsSigned(c: Config, st: State, b: Block)
    requires ApplyBlock(c, st, b).error.None?
    ensures WellFormed(c, b) && TransfersSigned(c, b)
  {
    BlockIff(c, st, b);
    forall j | 0 < j < |b.txs| ensures b.txs[j].kind.Transfer? && Signed(c, b.txs[j], b.height) {
      assert GoesThroughAt(c, st, b.txs, j, b.height);
    }
  }

  lemma {:induction false} NothingTaken(c: Config, txs: seq<Transaction>, i: nat, a: string)
    requires i <= |txs| && forall j :: i <= j < |txs| ==> !SentBy(c.env, txs[j], a)
    ensures Taken(c.env, txs, i, a) == 0 && Sends(c.env, txs, i, a) == 0
    decreases |txs| - i
  {
    if i < |txs| { NothingTaken(c, txs, i + 1, a); }
  }

  /** The account moved only by what it was paid, modulo 2^64, or the block holds a transfer signed for it. */
  ghost predicate Explained(c: Config, before: Account, b: Block, after: Account, a: string) {
    || (exists j :: 0 <= j < |b.txs| && AuthorizedBy(c, b.txs[j], b.height, a))
    || (after.nonce == before.nonce && after.balance == (before.balance + Credited(b.txs, 0, a)) % TWO64)
  }

  lemma OnlyOwnerSpends(c: Config, st: State, b: Block, a: string)
    requires ApplyBlock(c, st, b).error.None?
    ensures Explained(c, Lookup(st, a), b, Lookup(ApplyBlock(c, st, b).state, a), a)
  {
    if !exists j :: 0 <= j < |b.txs| && AuthorizedBy(c, b.txs[j], b.height, a) {
      BlockIsSigned(c, st, b);
      forall j | 0 <= j < |b.txs| ensures !SentBy(c.env, b.txs[j], a) {
        assert !AuthorizedBy(c, b.txs[j], b.height, a);
      }
      BlockIsItsTxs(c, st, b);
      TxsEffect(c, st, b.txs, 0, b.height, a);
      NothingTaken(c, b.txs, 0, a);
    }
  }

  lemma BlockApplied(c: Config, blocks: seq<Block>, i: nat)
    requires ApplyBlocks(c, blocks).error.None? && i < |blocks|
    ensures ApplyBlocks(c, blocks[..i]).error.None?
    ensures ApplyBlock(c, ApplyBlocks(c, blocks[..i]).state, blocks[i]) == ApplyBlocks(c, blocks[..i + 1])
    ensures ApplyBlocks(c, blocks[..i + 1]).error.None?
  {
    if ApplyBlocks(c, blocks[..i]).error.Some? { StopsAtError(c, blocks, i); }
    if ApplyBlocks(c, blocks[..i + 1]).error.Some? { StopsAtError(c, blocks, i + 1); }
    assert blocks[..i + 1][..i] == blocks[..i];
  }

  /** Every block of an accepted chain is within the size limit, opens with its only coinbase, which pays what is due,
      and carries signed transfers only; from one block to the next an account moves only by what it is paid or by a
      transfer signed with its key. */
  lemma ChainIsAuthorized(c: Config, blocks: seq<Block>, i: nat, a: string)
    requires ApplyBlocks(c, blocks).error.None? && i < |blocks|
    ensures WellFormed(c, blocks[i]) && TransfersSigned(c, blocks[i])
    ensures Explained(c, Lookup(ApplyBlocks(c, blocks[..i]).state, a), blocks[i],
                      Lookup(ApplyBlocks(c, blocks[..i + 1]).state, a), a)
  {
    var st := ApplyBlocks(c, blocks[..i]).state;
    BlockApplied(c, blocks, i);
    BlockIsSigned(c, st, blocks[i]);
    OnlyOwnerSpends(c, st, blocks[i], a);
  }

  lemma {:induction false} PostedIsSigned(c: Config, b: Block, i: nat, k: nat)
    requires TransfersSigned(c, b) && b.txs != [] && !b.txs[0].kind.Transfer? && k < |PostedFrom(b, i)|
    ensures PostedFrom(b, i)[k].tx.kind.Transfer? && Signed(c, PostedFrom(b, i)[k].tx, PostedFrom(b, i)[k].height)
    decreases |b.txs| - i
  {
    var here := |PostedAt(b, i)|;
    if k >= here { PostedIsSigned(c, b, i + 1, k - here); }
  }

  /** Every transfer in the history of an accepted chain is signed, over its bytes at its block's height. */
  lemma {:induction false} HistoryIsSigned(c: Config, blocks: seq<Block>, k: nat)
    requires ApplyBlocks(c, blocks).error.None? && k < |History(blocks)|
    ensures History(blocks)[k].tx.kind.Transfer? && Signed(c, History(blocks)[k].tx, History(blocks)[k].height)
  {
    var n := |blocks| - 1;
    var before := |History(blocks[..n])|;
    LastApplied(c, blocks);
    if k < before {
      HistoryIsSigned(c, blocks[..n], k);
    } else {
      BlockIsSigned(c, ApplyBlocks(c, blocks[..n]).state, blocks[n]);
      PostedIsSigned(c, blocks[n], 0, k - before);
    }
  }
}
