/** Choosing pending transactions to mine, and when the block built from them is valid. */
module Selection {
  import opened Words
  import opened Types
  import opened TxRules
  import opened Ledger
  import opened Conservation
  import opened Pow
  import opened ForkChoice
  import opened NodeRules
  import opened Worlds
  import opened MiningTheorems
  import opened MiningFailures
  import opened Mempools
  import opened Chain
  import Sorting

  const DEFAULT_PICKS: nat := 100

  function LimitOf(max: int): nat { if max <= 0 then DEFAULT_PICKS else max }

  function Normal(c: Config, tx: Transaction): Transaction {
    if tx.chainId == 0 then tx.(chainId := c.chainId) else tx
  }

  /** The simulated accounts after a pending transaction, or `None` when it is passed over. */
  function Try(c: Config, st: State, tx: Transaction, h: u64): Option<State> {
    if !tx.kind.Transfer? then None
    else
      var t := Normal(c, tx);
      if VerifyTx(c, t, h).Some? then None
      else
        var r := ApplyTransfer(st, Sender(c.env, t), t);
        if r.error.Some? then None else Some(r.state)
  }

  datatype Choice = Choice(picked: seq<Transaction>, ids: seq<string>, state: State)

  /** Greedy selection in the given order, at most `max`, against simulated accounts. */
  function Select(c: Config, st: State, order: seq<Entry>, max: nat, h: u64): Choice {
    if order == [] then Choice([], [], st)
    else
      var e := order[|order| - 1];
      var before := Select(c, st, order[..|order| - 1], max, h);
      if |before.picked| >= max then before
      else
        match Try(c, before.state, e.tx, h)
        case None => before
        case Some(after) => Choice(before.picked + [Normal(c, e.tx)], before.ids + [e.txid], after)
  }

  lemma {:induction false} FullStaysFull(c: Config, st: State, order: seq<Entry>, k: nat, max: nat, h: u64)
    requires k <= |order| && |Select(c, st, order[..k], max, h).picked| >= max
    ensures Select(c, st, order, max, h) == Select(c, st, order[..k], max, h)
    decreases |order|
  {
    if k == |order| {
      assert order[..k] == order;
    } else {
      var init := order[..|order| - 1];
      assert init[..k] == order[..k];
      FullStaysFull(c, st, init, k, max, h);
    }
  }

  method TryOne(c: Config, st: State, tx: Transaction, h: u64) returns (r: Option<State>)
    ensures r == Try(c, st, tx, h)
  {
    if tx.kind != Transfer { return None; }
    var t := tx;
    if t.chainId == 0 { t := t.(chainId := c.chainId); }
    if VerifyTx(c, t, h).Some? { return None; }
    var fromAddr := FromAddress(c.env, t);
    if fromAddr.None? { return None; }
    var from := Lookup(st, fromAddr.value);
    if AddU64(from.nonce, 1) != t.nonce { return None; }
    var totalDebit := AddU64(t.amount, t.fee);
    if from.balance < totalDebit { return None; }
    var state: State := st[fromAddr.value := Account(from.balance - totalDebit, t.nonce)];
    var to := Lookup(state, t.toAddress);
    state := state[t.toAddress := to.(balance := AddU64(to.balance, t.amount))];
    return Some(state);
  }

  method Greedy(c: Config, st: State, order: seq<Entry>, max: nat, h: u64) returns (r: Choice)
    ensures r == Select(c, st, order, max, h)
  {
    r := Choice([], [], st);
    for i := 0 to |order|
      invariant r == Select(c, st, order[..i], max, h)
    {
      if |r.picked| >= max {
        FullStaysFull(c, st, order, i, max, h);
        return;
      }
      var next := TryOne(c, r.state, order[i].tx, h);
      var upTo := order[..i + 1];
      assert upTo[..|upTo| - 1] == order[..i] && upTo[|upTo| - 1] == order[i];
      if next.Some? {
        r := Choice(r.picked + [Normal(c, order[i].tx)], r.ids + [order[i].txid], next.value);
      }
    }
    assert order[..|order|] == order;
  }

  /** SelectMempoolTxs: the greedy selection over the pool by falling fee, from the node's accounts. */
  method SelectMempoolTxs(bc: Blockchain, mp: Mempool, max: int)
    returns (picked: seq<Transaction>, ids: seq<string>, ghost order: seq<Entry>)
    requires bc.blocks != [] && mp.Valid()
    ensures ByFallingFee(order) && |order| == |mp.entries|
    ensures forall e :: e in order <==> e.txid in mp.entries && mp.entries[e.txid] == e
    ensures var limit := if max <= 0 then 100 else max;
            && picked == Select(bc.cfg, bc.state, order, limit, NextHeight(bc.Snapshot())).picked
            && ids == Select(bc.cfg, bc.state, order, limit, NextHeight(bc.Snapshot())).ids
            && |ids| == |picked| <= limit
  {
    var limit := LimitOf(max);
    var entries := mp.EntriesSortedByFeeDesc();
    order := entries;
    var nextHeight := AddU64(bc.blocks[|bc.blocks| - 1].height, 1);
    var choice := Greedy(bc.cfg, bc.state, entries, limit, nextHeight);
    PicksWithinLimit(bc.cfg, bc.state, entries, limit, nextHeight);
    picked, ids := choice.picked, choice.ids;
  }

  lemma {:induction false} PicksWithinLimit(c: Config, st: State, order: seq<Entry>, max: nat, h: u64)
    ensures |Select(c, st, order, max, h).picked| <= max
            && |Select(c, st, order, max, h).ids| == |Select(c, st, order, max, h).picked|
  {
    if order != [] { PicksWithinLimit(c, st, order[..|order| - 1], max, h); }
  }

  // ----- the selection replays -----

  /** The ledger accepts the picks in order from the same accounts, and ends where the simulation ended. */
  lemma {:induction false} SelectionReplays(c: Config, st: State, order: seq<Entry>, max: nat, h: u64, cb: Transaction)
    ensures var choice := Select(c, st, order, max, h);
            ApplyTxs(c, st, [cb] + choice.picked, 1, h) == Applied(choice.state, None)
    decreases |order|
  {
    if order != [] {
      var e, init := order[|order| - 1], order[..|order| - 1];
      var before := Select(c, st, init, max, h);
      SelectionReplays(c, st, init, max, h, cb);
      if |before.picked| < max && Try(c, before.state, e.tx, h).Some? {
        ApplyOneMore(c, st, [cb] + before.picked, Normal(c, e.tx), 1, h);
        assert [cb] + before.picked + [Normal(c, e.tx)] == [cb] + (before.picked + [Normal(c, e.tx)]);
      }
    }
  }

  /** Nothing is passed over without cause: while there is room, the next entry is picked if and only if the ledger
      would accept it after the picks before it. */
  lemma SelectionIsExact(c: Config, st: State, order: seq<Entry>, k: nat, max: nat, h: u64, cb: Transaction)
    requires k < |order| && |Select(c, st, order[..k], max, h).picked| < max
    ensures var before, after := Select(c, st, order[..k], max, h), Select(c, st, order[..k + 1], max, h);
            var t := Normal(c, order[k].tx);
            if ApplyTxs(c, st, [cb] + before.picked + [t], 1, h).error.None?
            then after.picked == before.picked + [t] && after.ids == before.ids + [order[k].txid]
            else after == before
  {
    var before := Select(c, st, order[..k], max, h);
    var upTo := order[..k + 1];
    assert upTo[..|upTo| - 1] == order[..k] && upTo[|upTo| - 1] == order[k];
    SelectionReplays(c, st, order[..k], max, h, cb);
    ApplyOneMore(c, st, [cb] + before.picked, Normal(c, order[k].tx), 1, h);
  }

  // ----- crediting the coinbase first -----

  lemma CreditsCommute(st: State, a: string, x: u64, b: string, y: u64)
    ensures Credit(Credit(st, a, x), b, y) == Credit(Credit(st, b, y), a, x)
  {
  }

  /** Charging `from` after a credit to `m` is charging it before, when the credited balance covers the debit. */
  lemma DebitAfterCredit(st: State, from: string, debit: u64, n: u64, m: string, cb: u64)
    requires debit <= Lookup(st, from).balance && debit <= Lookup(Credit(st, m, cb), from).balance
    ensures Credit(st, m, cb)[from := Account(Lookup(Credit(st, m, cb), from).balance - debit, n)]
            == Credit(st[from := Account(Lookup(st, from).balance - debit, n)], m, cb)
  {
  }

  /** A transfer after a credit to `m`: it passes unless `m` is the sender and the credit wrapped its balance below
      the debit; and then credit and transfer commute. */
  lemma TransferAfterCredit(st: State, from: string, tx: Transaction, m: string, cb: u64)
    requires ApplyTransfer(st, from, tx).error.None?
    ensures var r := ApplyTransfer(Credit(st, m, cb), from, tx);
            && (r.error.None? <==> (from == m ==> AddU64(Lookup(st, m).balance, cb) >= AddU64(tx.amount, tx.fee)))
            && (r.error.None? ==> r.state == Credit(ApplyTransfer(st, from, tx).state, m, cb))
  {
    var debit := AddU64(tx.amount, tx.fee);
    if ApplyTransfer(Credit(st, m, cb), from, tx).error.None? {
      DebitAfterCredit(st, from, debit, tx.nonce, m, cb);
      CreditsCommute(st[from := Account(Lookup(st, from).balance - debit, tx.nonce)], m, cb, tx.toAddress, tx.amount);
    }
  }

  /** Whenever `m` sends, its balance with the credit on top still covers the debit. */
  ghost predicate Covered(c: Config, st: State, txs: seq<Transaction>, i: nat, h: u64, m: string, cb: u64)
    decreases |txs| - i
  {
    i < |txs| ==>
      && (FromAddress(c.env, txs[i]) == Some(m) ==>
         AddU64(Lookup(st, m).balance, cb) >= AddU64(txs[i].amount, txs[i].fee))
      && Covered(c, ApplyTx(c, st, txs[i], i, h).state, txs, i + 1, h, m, cb)
  }

  /** Transfers that pass from `st` pass with `m` credited first if and only if `m` stays covered. */
  lemma {:induction false} TransfersAfterCredit(c: Config, st: State, txs: seq<Transaction>, i: nat, h: u64, m: string,
                                                cb: u64)
    requires 0 < i <= |txs| && ApplyTxs(c, st, txs, i, h).error.None?
    ensures ApplyTxs(c, Credit(st, m, cb), txs, i, h).error.None? <==> Covered(c, st, txs, i, h, m, cb)
    ensures Covered(c, st, txs, i, h, m, cb) ==>
              ApplyTxs(c, Credit(st, m, cb), txs, i, h).state == Credit(ApplyTxs(c, st, txs, i, h).state, m, cb)
    decreases |txs| - i
  {
    if i < |txs| {
      assert txs[i].kind.Transfer? && VerifyTx(c, txs[i], h).None?;
      TransferAfterCredit(st, Sender(c.env, txs[i]), txs[i], m, cb);
      TransfersAfterCredit(c, ApplyTx(c, st, txs[i], i, h).state, txs, i + 1, h, m, cb);
    }
  }

  /** Nothing sent by the miner: always covered. */
  lemma {:induction false} OthersAreCovered(c: Config, st: State, txs: seq<Transaction>, i: nat, h: u64, m: string,
                                            cb: u64)
    requires forall j :: i <= j < |txs| ==> FromAddress(c.env, txs[j]) != Some(m)
    ensures Covered(c, st, txs, i, h, m, cb)
    decreases |txs| - i
  {
    if i < |txs| {
      assert FromAddress(c.env, txs[i]) != Some(m);
      OthersAreCovered(c, ApplyTx(c, st, txs[i], i, h).state, txs, i + 1, h, m, cb);
    }
  }

  /** A supply that fits 64 bits with the coinbase on top, and debits that do not wrap: always covered. */
  lemma {:induction false} FittingSupplyIsCovered(c: Config, st: State, txs: seq<Transaction>, i: nat, h: u64,
                                                  m: string, cb: u64)
    requires 0 < i <= |txs| && ApplyTxs(c, st, txs, i, h).error.None?
    requires NoDebitWraps(txs) && Total(st) + cb < TWO64
    ensures Covered(c, st, txs, i, h, m, cb)
    decreases |txs| - i
  {
    if i < |txs| {
      assert txs[i].kind.Transfer? && VerifyTx(c, txs[i], h).None?;
      BalanceBelowTotal(st, m);
      NoCreditWrap(st, Sender(c.env, txs[i]), txs[i]);
      FittingSupplyIsCovered(c, ApplyTx(c, st, txs[i], i, h).state, txs, i + 1, h, m, cb);
    }
  }

  /** A family that is not covered: the miner holds all 2^64 - 1 units and spends some in its own block. */
  lemma RichMinerIsNotCovered(m: string, tx: Transaction)
    requires tx.amount > 0 && tx.fee > 0 && tx.amount + tx.fee < TWO64 && tx.nonce == 1
    ensures var st: State := map[m := Account(TWO64 - 1, 0)];
            && ApplyTransfer(st, m, tx).error.None?
            && ApplyTransfer(Credit(st, m, 1), m, tx).error == Some(InsufficientFunds)
  {
  }

  // ----- the mined block -----

  /** A block made of a coinbase and a selection is valid exactly when the coinbase and size rules pass and the
      miner's own transfers stay covered. */
  lemma SelectedBlockIsValid(c: Config, st: State, order: seq<Entry>, max: nat, b: Block)
    requires |b.txs| > 0 && b.txs[0].kind.Coinbase?
    requires b.txs[1..] == Select(c, st, order, max, b.height).picked
    ensures ApplyBlock(c, st, b).error.None? <==>
            && BlockPrecheck(c, b).None? && VerifyTx(c, b.txs[0], b.height).None?
            && Covered(c, st, b.txs, 1, b.height, b.txs[0].toAddress, b.txs[0].amount)
  {
    var cb := b.txs[0];
    assert b.txs == [cb] + b.txs[1..];
    SelectionReplays(c, st, order, max, b.height, cb);
    TransfersAfterCredit(c, st, b.txs, 1, b.height, cb.toAddress, cb.amount);
  }

  predicate Allowed(c: Config, tx: Transaction) { tx.chainId == c.chainId && tx.fee >= MIN_FEE }

  lemma {:induction false} PickedIsVerified(c: Config, st: State, order: seq<Entry>, max: nat, h: u64, j: nat)
    requires j < |Select(c, st, order, max, h).picked|
    ensures var t := Select(c, st, order, max, h).picked[j];
            t.kind.Transfer? && VerifyTx(c, t, h).None?
    decreases |order|
  {
    var init := order[..|order| - 1];
    if j < |Select(c, st, init, max, h).picked| { PickedIsVerified(c, st, init, max, h, j); }
  }

  lemma {:induction false} CheckPicks(c: Config, txs: seq<Transaction>, i: nat, h: u64)
    requires forall j :: i <= j < |txs| ==> txs[j].kind.Transfer? && VerifyTx(c, txs[j], h).None?
    ensures CheckTransfers(c, txs, i, h).None? <==> forall j :: i <= j < |txs| ==> Allowed(c, txs[j])
    decreases |txs| - i
  {
    if i < |txs| {
      assert txs[i].kind.Transfer? && VerifyTx(c, txs[i], h).None?;
      CheckPicks(c, txs, i + 1, h);
    }
  }

  /** The miner's own checks refuse a selection only over a foreign chain id or a fee of zero, which selection
      does not look at. */
  lemma MinerRefusesPicks(c: Config, st: State, order: seq<Entry>, max: nat, h: u64)
    ensures var picked := Select(c, st, order, max, h).picked;
            CheckTransfers(c, picked, 0, h).None? <==> forall j :: 0 <= j < |picked| ==> Allowed(c, picked[j])
  {
    var picked := Select(c, st, order, max, h).picked;
    forall j | 0 <= j < |picked| ensures picked[j].kind.Transfer? && VerifyTx(c, picked[j], h).None? {
      PickedIsVerified(c, st, order, max, h, j);
    }
    CheckPicks(c, picked, 0, h);
  }

  /** Mining a selection fails only at an early guard, on the miner's own transfers, or at the store: no pick ever fails
      on its nonce, its signature or another sender's funds. */
  lemma MiningASelection(c: Config, s: Node, job: Job, order: seq<Entry>, max: nat, nonce: u64)
    requires s.blocks != [] && job.transfers == Select(c, s.state, order, max, NextHeight(s)).picked
    ensures var cand := Candidate(c, s, job);
            Mine(c, s, job, nonce, true).block.Ok? <==>
            && !StopsEarly(c, s, job, nonce)
            && Covered(c, s.state, cand.txs, 1, cand.height, job.miner, cand.txs[0].amount)
  {
    var cand := Candidate(c, s, job);
    if HeaderOf(c, cand, nonce).Some? {
      var b := Seal(c, cand, nonce);
      assert b.txs[1..] == job.transfers;
      SelectedBlockIsValid(c, s.state, order, max, b);
    }
  }

  /** With its store, mining a selection succeeds if and only if no early guard stops it, the miner's own transfers stay
      covered, the store's canonical chain holds the block's parent, and the append commits. */
  lemma MiningASelectionIff(c: Config, w: World, job: Job, order: seq<Entry>, max: nat, nonce: u64, appendOk: bool)
    requires w.node.blocks != [] && job.transfers == Select(c, w.node.state, order, max, NextHeight(w.node)).picked
    ensures var cand := Candidate(c, w.node, job);
            MineAt(c, w, job, nonce, appendOk).block.Ok? <==>
            && !StopsEarly(c, w.node, job, nonce)
            && Covered(c, w.node.state, cand.txs, 1, cand.height, job.miner, cand.txs[0].amount)
            && w.disk.Links(cand) && appendOk
  {
    MiningASelection(c, w.node, job, order, max, nonce);
    if Mine(c, w.node, job, nonce, true).block.Ok? {
      var b := MinedShape(c, w.node, job, nonce);
      assert w.disk.AppendCanonical(b).Some? <==> w.disk.Links(Candidate(c, w.node, job));
    }
  }
}
