/** The Blockchain object: the node's state updated in place, proved against the fork-choice functions. */
module Chain {
  import opened Words
  import opened Types
  import opened Ledger
  import opened TxRules
  import opened Monetary
  import opened Difficulty
  import opened TimeRules
  import opened Pow
  import opened PathRules
  import opened BlockTree
  import opened Indexes
  import opened ForkChoice
  import opened NodeRules
  import opened Disks
  import opened Worlds
  import opened MiningTheorems
  import opened Audit

  // ----- the checks of AddBlock and MineTransfers, as loops -----

  method CheckBlockTxs(c: Config, b: Block) returns (error: Option<Error>)
    ensures error == CheckTxs(c, b.txs, 0, b.height)
  {
    for i := 0 to |b.txs|
      invariant CheckTxs(c, b.txs, i, b.height) == CheckTxs(c, b.txs, 0, b.height)
    {
      var tx := b.txs[i];
      if tx.chainId == 0 { tx := tx.(chainId := c.chainId); }
      if tx.chainId != c.chainId { return Some(WrongChainId); }
      var e := VerifyTx(c, tx, b.height);
      if e.Some? { return e; }
    }
    return None;
  }

  /** Everything AddBlock checks before it takes the lock. */
  method Admit(c: Config, b: Block) returns (error: Option<Error>)
    ensures error == RulesOf(c).admission(b)
  {
    if b.height == 0 { return Some(ExternalGenesis); }
    if b.version != BlockVersionForHeight(c.params, b.height) { return Some(BadVersion); }
    if |b.hash| == 0 { return Some(MissingHash); }
    if b.bits == 0 { return Some(MissingDifficulty); }
    if b.bits > MAX_DIFFICULTY_BITS { return Some(DifficultyOutOfRange); }
    var pow := ValidatePow(c, b);
    if pow.Err? { return Some(pow.error); }
    if !pow.value { return Some(InvalidProofOfWork); }
    error := CheckBlockTxs(c, b);
  }

  /** computeCanonicalForTipLocked: walk to genesis, reverse, validate and replay. */
  method ComputeCanonical(c: Config, store: Store, tip: Bytes, now: i64) returns (r: Result<(seq<Block>, View), Error>)
    ensures r == Canonical(RulesOf(c), store, tip, now)
  {
    var walk := WalkToGenesis(store, tip);
    if walk.Err? { return Err(walk.error); }
    var v := ReplayPath(c, walk.value, now);
    if v.Err? { return Err(v.error); }
    return Ok((walk.value, v.value));
  }

  method Reindex(c: Config, blocks: seq<Block>) returns (txs: TxIndex, addresses: AddressIndex)
    ensures txs == RulesOf(c).txIndex(blocks) && addresses == RulesOf(c).addressIndex(blocks)
  {
    txs := ReindexAllTxs(c, blocks);
    addresses := ReindexAllAddressTxs(c, blocks);
  }

  /** The transfer checks of MineTransfers with the running fee total. */
  method CheckAndSum(c: Config, transfers: seq<Transaction>, h: u64) returns (error: Option<Error>, fees: u64)
    ensures error == CheckTransfers(c, transfers, 0, h)
    ensures error.None? ==> fees == FeesFrom(transfers, 0) % TWO64
  {
    fees := 0;
    for i := 0 to |transfers|
      invariant CheckTransfers(c, transfers, i, h) == CheckTransfers(c, transfers, 0, h)
      invariant (fees + FeesFrom(transfers, i)) % TWO64 == FeesFrom(transfers, 0) % TWO64
    {
      if transfers[i].kind != Transfer { return Some(OnlyTransfers), fees; }
      var tx := transfers[i];
      if tx.chainId == 0 { tx := tx.(chainId := c.chainId); }
      if tx.chainId != c.chainId { return Some(WrongChainId), fees; }
      var e := VerifyTx(c, tx, h);
      if e.Some? { return e, fees; }
      if tx.fee < MIN_FEE { return Some(FeeTooLow), fees; }
      WrapStep(fees, transfers[i].fee, FeesFrom(transfers, i + 1));
      fees := AddU64(fees, tx.fee);
    }
    return None, fees;
  }

  /** A validated path is numbered from genesis, as the store's height keys expect. */
  lemma CanonicalIsNumbered(c: Config, store: Store, tip: Bytes, now: i64)
    ensures Canonical(RulesOf(c), store, tip, now).Ok? ==> AtHeights(Canonical(RulesOf(c), store, tip, now).value.0)
  {
    if Canonical(RulesOf(c), store, tip, now).Ok? {
      var path := Canonical(RulesOf(c), store, tip, now).value.0;
      PathIsNumbered(c, store, tip, path, now);
    }
  }

  lemma PathIsNumbered(c: Config, store: Store, tip: Bytes, path: seq<Block>, now: i64)
    requires PathTo(store, tip, {}) == Ok(path) && Replay(c, path, At(now)).Ok?
    ensures AtHeights(path)
  {
    PathNonEmpty(store, tip, {});
    forall j | 0 < j < |path| ensures path[j].height != 0 { PathIsStored(store, tip, {}, j); }
    forall i | 0 <= i < |path| ensures path[i].height == i { HeightIsIndex(c, path, i, At(now)); }
  }

  // ----- the object -----

  class Blockchain {
    const cfg: Config
    const minerAddress: string
    const store: BoltStore
    var blocksByHash: Store
    var blocks: seq<Block>
    var state: State
    var bestTipHash: Bytes
    var canonicalWork: nat
    var txIndex: TxIndex
    var addressIndex: AddressIndex

    ghost function Snapshot(): Node
      reads this
    {
      Node(blocksByHash, blocks, state, bestTipHash, canonicalWork, txIndex, addressIndex)
    }

    /** The node and what its store holds. */
    ghost function Here(): World
      reads this, store
    {
      World(Snapshot(), store.Contents())
    }

    constructor (c: Config, miner: string, store: BoltStore, n: Node)
      ensures cfg == c && minerAddress == miner && this.store == store && Snapshot() == n
    {
      cfg, minerAddress, this.store := c, miner, store;
      blocksByHash, blocks, state, bestTipHash, canonicalWork := n.store, n.blocks, n.state, n.tip, n.work;
      txIndex, addressIndex := n.txIndex, n.addressIndex;
    }

    /** The node follows a new chain: every view is replaced, then the store's canonical chain is rewritten. */
    method Follow(b: Block, path: seq<Block>, v: View, rewriteOk: bool) returns (reorged: bool, error: Option<Error>)
      requires blocks != [] && AtHeights(path)
      modifies this, store
      ensures Snapshot() == Adopt(RulesOf(cfg), old(blocksByHash), path, v, b.hash)
              && reorged == !Extends(old(Snapshot()), b)
      ensures error == if rewriteOk && AllHashed(path) then None else Some(StoreFailed)
      ensures store.Contents()
              == if rewriteOk && AllHashed(path) then old(store.Contents()).RewriteCanonical(path).value
                 else old(store.Contents())
    {
      var wasExtension := b.prevHash == bestTipHash && b.height == AddU64(blocks[|blocks| - 1].height, 1);
      blocks := path;
      state := v.state;
      bestTipHash := b.hash;
      txIndex, addressIndex := Reindex(cfg, path);
      canonicalWork := v.work;
      var ok := store.RewriteCanonical(path, rewriteOk);
      return !wasExtension, if ok then None else Some(StoreFailed);
    }

    /** The second half of AddBlock, after the block was filed: roll it back, keep it aside, or follow it. */
    method Settle(b: Block, judged: Result<(seq<Block>, View), Error>, putOk: bool, rewriteOk: bool, ghost before: Node)
      returns (reorged: bool, error: Option<Error>)
      requires before.blocks != [] && b.hash !in before.store
               && Snapshot() == before.(store := before.store[b.hash := b])
      requires |b.hash| > 0 && (judged.Ok? ==> AtHeights(judged.value.0))
      modifies this, store
      ensures AddOutcome(Snapshot(), reorged, error)
              == ForkChoice.Settle(RulesOf(cfg), before, b, judged, putOk,
                                   rewriteOk && judged.Ok? && AllHashed(judged.value.0))
      ensures store.Contents() == SettleDisk(before, old(store.Contents()), b, judged, putOk, rewriteOk)
    {
      if judged.Err? {
        blocksByHash := blocksByHash - {b.hash};
        assert blocksByHash == before.store;
        return false, Some(judged.error);
      }
      var stored := store.PutBlock(b, putOk);
      if !stored {
        blocksByHash := blocksByHash - {b.hash};
        assert blocksByHash == before.store;
        return false, Some(StoreFailed);
      }
      var (path, v) := judged.value;
      if !Better(v.work, b.hash, canonicalWork, bestTipHash) { return false, None; }
      reorged, error := Follow(b, path, v, rewriteOk);
    }

    /** AddBlock: the new node, the reorg flag and the error are those of the fork-choice function, and the store
        takes the writes that go with them. */
    method AddBlock(b: Block, now: i64, putOk: bool, rewriteOk: bool) returns (reorged: bool, error: Option<Error>)
      requires blocks != []
      modifies this, store
      ensures AddOutcome(Snapshot(), reorged, error)
              == ForkChoice.AddBlock(RulesOf(cfg), old(Snapshot()), b, now, putOk, rewriteOk && AllHashed(blocks))
      ensures store.Contents() == ReceiveDisk(RulesOf(cfg), old(Snapshot()), old(store.Contents()), b, now, putOk,
                                              rewriteOk)
    {
      error := Admit(cfg, b);
      if error.Some? { return false, error; }
      if b.prevHash !in blocksByHash { return false, Some(UnknownParent); }
      if b.hash in blocksByHash { return false, Some(DuplicateBlock); }
      blocksByHash := blocksByHash[b.hash := b];
      var judged := ComputeCanonical(cfg, blocksByHash, b.hash, now);
      CanonicalIsNumbered(cfg, blocksByHash, b.hash, now);
      AdmissionLaw(cfg, b);
      reorged, error := Settle(b, judged, putOk, rewriteOk, old(Snapshot()));
    }

    /** The block MineTransfers assembles from transfers that passed their checks. */
    method Assemble(transfers: seq<Transaction>, fees: u64, now: i64, note: Bytes) returns (b: Block)
      requires blocks != [] && fees == FeesFrom(transfers, 0) % TWO64
      ensures b == Candidate(cfg, Snapshot(), Job(minerAddress, transfers, now, note))
    {
      var latest := blocks[|blocks| - 1];
      var height := AddU64(latest.height, 1);
      var ts := now;
      if ts <= latest.timestamp { ts := WrapI64(latest.timestamp + 1); }
      var policy := cfg.params.policy;
      var amount := AddU64(BlockReward(policy, height), MinerFeeAmount(policy, fees));
      var coinbase := Transaction(Coinbase, cfg.chainId, None, minerAddress, amount, 0, 0, note, None);
      b := Block(BlockVersionForHeight(cfg.params, height), height, ts, latest.hash, 0, NextBits(cfg.params, blocks),
                 minerAddress, [coinbase] + transfers, []);
    }

    /** The ledger step on the live accounts, the store call, and the incremental update of every view. */
    method CommitMined(b: Block, appendOk: bool) returns (r: Result<Block, Error>)
      requires |b.hash| > 0
      modifies this, store
      ensures MineOutcome(Snapshot(), r)
              == Commit(cfg, old(Snapshot()), b, appendOk && old(store.Contents()).AppendCanonical(b).Some?)
      ensures store.Contents()
              == if r.Ok? then old(store.Contents()).AppendCanonical(b).value else old(store.Contents())
    {
      var error;
      state, error := ApplyBlockToState(cfg, state, b);
      if error.Some? { return Err(error.value); }
      var ok := store.AppendCanonical(b, appendOk);
      if !ok { return Err(StoreFailed); }
      blocks := blocks + [b];
      blocksByHash := blocksByHash[b.hash := b];
      txIndex := IndexTxsForBlock(cfg, txIndex, b);
      addressIndex := IndexAddressTxsForBlock(cfg, addressIndex, b);
      bestTipHash := b.hash;
      canonicalWork := canonicalWork + WorkForBits(b.bits);
      return Ok(b);
    }

    /** MineTransfers: node, store and outcome are those of the mining step at the nonce the search ends on, the
        first that solves the block or fails to encode. */
    method MineTransfers(transfers: seq<Transaction>, now: i64, note: Bytes, appendOk: bool, ghost stop: u64)
      returns (r: Result<Block, Error>, ghost nonce: u64)
      requires blocks != [] && ParamsOk(cfg.params)
      requires var b := Candidate(cfg, Snapshot(), Job(minerAddress, transfers, now, note));
               b.bits <= MAX_DIFFICULTY_BITS ==> Stops(cfg, b, stop)
      modifies this, store
      ensures MineOutcome(Snapshot(), r)
              == MineAt(cfg, old(Here()), Job(minerAddress, transfers, now, note), nonce, appendOk)
      ensures Here() == MineStep(cfg, old(Here()), Job(minerAddress, transfers, now, note), nonce, appendOk)
      ensures r.Ok? ==> r.value.nonce == nonce <= stop
      ensures var b := Candidate(cfg, old(Snapshot()), Job(minerAddress, transfers, now, note));
              r.Ok? ==> b.bits <= MAX_DIFFICULTY_BITS && FirstStop(cfg, b, nonce) && Solves(cfg, b, nonce)
    {
      ghost var job := Job(minerAddress, transfers, now, note);
      nonce := stop;
      var refused, fees := CheckAndSum(cfg, transfers, AddU64(blocks[|blocks| - 1].height, 1));
      if refused.Some? { return Err(refused.value), nonce; }
      var b := Assemble(transfers, fees, now, note);
      NextBitsUsable(cfg.params, blocks);
      var found := RunPow(cfg, b, stop);
      if found.Err? {
        nonce :| FirstStop(cfg, b, nonce) && HeaderOf(cfg, b, nonce).None?;
        return Err(found.error), nonce;
      }
      nonce := found.value.0;
      b := b.(nonce := found.value.0, hash := found.value.1);
      MiningCommits(cfg, Here(), job, nonce, appendOk);
      r := CommitMined(b, appendOk);
    }

    /** AuditChain: reports what the audit function finds; the accounts are rebuilt by replay when the
        headers pass, and nothing else changes. */
    method AuditChain(now: i64) returns (error: Option<Error>)
      modifies this
      ensures error == AuditResult(cfg, blocks, At(now))
      ensures blocks == [] ==> Here() == old(Here())
      ensures blocks != [] ==> Here() == AuditStep(cfg, old(Here()), now)
    {
      if blocks == [] { return Some(EmptyChain); }
      error := CheckAuditHeaders(cfg, blocks, now);
      if error.Some? { return; }
      state, error := RecomputeState(cfg, blocks);
    }
  }
}
