/** When a failed mining step leaves the node as it was. */
module MiningFailures {
  import opened Words
  import opened Types
  import opened Ledger
  import opened TxRules
  import opened Pow
  import opened ForkChoice
  import opened NodeRules

  ghost predicate NoncesGrow(before: State, after: State) {
    forall a :: Lookup(before, a).nonce <= Lookup(after, a).nonce
  }

  ghost predicate SomeNonceGrew(before: State, after: State) {
    exists a :: Lookup(before, a).nonce < Lookup(after, a).nonce
  }

  /** One transaction after the coinbase either changes nothing or moves a nonce on. */
  lemma TransferMovesNonce(c: Config, st: State, tx: Transaction, i: nat, h: u64)
    requires i > 0
    ensures var r := ApplyTx(c, st, tx, i, h);
            NoncesGrow(st, r.state) && (if r.error.Some? then r.state == st else SomeNonceGrew(st, r.state))
  {
    var r := ApplyTx(c, st, tx, i, h);
    if r.error.None? {
      var from := Sender(c.env, tx);
      assert tx.nonce == AddU64(Lookup(st, from).nonce, 1);
      assert VerifyTx(c, tx, h).None?;
      assert tx.nonce != 0;
      assert Lookup(st, from).nonce < Lookup(r.state, from).nonce;
    }
  }

  /** The transactions after the coinbase either change nothing or move some nonce on. */
  lemma {:induction false} TransfersMoveNonces(c: Config, st: State, txs: seq<Transaction>, i: nat, h: u64)
    requires 0 < i <= |txs|
    ensures var after := ApplyTxs(c, st, txs, i, h).state;
            NoncesGrow(st, after) && (after == st || SomeNonceGrew(st, after))
    decreases |txs| - i
  {
    if i < |txs| {
      TransferMovesNonce(c, st, txs[i], i, h);
      var r := ApplyTx(c, st, txs[i], i, h);
      if r.error.None? {
        TransfersMoveNonces(c, r.state, txs, i + 1, h);
        var a :| Lookup(st, a).nonce < Lookup(r.state, a).nonce;
        assert Lookup(r.state, a).nonce <= Lookup(ApplyTxs(c, r.state, txs, i + 1, h).state, a).nonce;
      }
    }
  }

  /** Once a coinbase of a nonzero amount is credited, the accounts differ for good. */
  lemma CreditedIsChanged(c: Config, st: State, b: Block)
    requires BlockPrecheck(c, b).None? && VerifyTx(c, b.txs[0], b.height).None? && b.txs[0].amount > 0
    ensures ApplyBlock(c, st, b).state != st
  {
    var cb := b.txs[0];
    var credited := Credit(st, cb.toAddress, cb.amount);
    assert ApplyTx(c, st, cb, 0, b.height) == Applied(credited, None);
    assert Lookup(credited, cb.toAddress).balance != Lookup(st, cb.toAddress).balance;
    forall a ensures Lookup(credited, a).nonce == Lookup(st, a).nonce {}
    TransfersMoveNonces(c, credited, b.txs, 1, b.height);
  }

  /** The guards that stop a mining step before any account is touched: the transfers, the header encoding,
      the size and miner checks, the coinbase itself. */
  predicate StopsEarly(c: Config, s: Node, job: Job, nonce: u64)
    requires s.blocks != []
  {
    || CheckTransfers(c, job.transfers, 0, NextHeight(s)).Some?
    || (var b := Candidate(c, s, job);
        || HeaderOf(c, b, nonce).None?
        || BlockPrecheck(c, Seal(c, b, nonce)).Some?
        || VerifyTx(c, b.txs[0], b.height).Some?)
  }

  lemma EarlyStopAppliesNothing(c: Config, st: State, b: Block)
    requires BlockPrecheck(c, b).Some? || VerifyTx(c, b.txs[0], b.height).Some?
    ensures ApplyBlock(c, st, b).state == st && ApplyBlock(c, st, b).error.Some?
  {
  }

  lemma VerifiedCoinbasePays(c: Config, tx: Transaction, h: u64)
    requires tx.kind.Coinbase? && VerifyTx(c, tx, h).None?
    ensures tx.amount > 0
  {
  }

  /** A failed mining step leaves the node untouched if and only if it fails at one of the early guards;
      a later failure, of a transfer or of the store, leaves changed accounts behind. */
  lemma FailedMiningIsCleanIff(c: Config, s: Node, job: Job, nonce: u64, appendOk: bool)
    requires s.blocks != [] && Mine(c, s, job, nonce, appendOk).block.Err?
    ensures Mine(c, s, job, nonce, appendOk).node == s <==> StopsEarly(c, s, job, nonce)
  {
    var cand := Candidate(c, s, job);
    if CheckTransfers(c, job.transfers, 0, NextHeight(s)).None? && HeaderOf(c, cand, nonce).Some? {
      var b := Seal(c, cand, nonce);
      if BlockPrecheck(c, b).Some? || VerifyTx(c, b.txs[0], b.height).Some? {
        EarlyStopAppliesNothing(c, s.state, b);
      } else {
        VerifiedCoinbasePays(c, b.txs[0], b.height);
        CreditedIsChanged(c, s.state, b);
      }
    }
  }

  /** A family where it goes wrong: everything valid, and the store refuses the block. */
  lemma StoreFailureChangesAccounts(c: Config, s: Node, job: Job, nonce: u64)
    requires s.blocks != [] && Mine(c, s, job, nonce, true).block.Ok?
    ensures var out := Mine(c, s, job, nonce, false);
            && out.block == Err(StoreFailed) && out.node.state != s.state
            && out.node == s.(state := Mine(c, s, job, nonce, true).node.state)
  {
    var b := Seal(c, Candidate(c, s, job), nonce);
    if VerifyTx(c, b.txs[0], b.height).Some? { EarlyStopAppliesNothing(c, s.state, b); }
    VerifiedCoinbasePays(c, b.txs[0], b.height);
    CreditedIsChanged(c, s.state, b);
  }
}
