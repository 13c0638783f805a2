/** The node's own rules for blocks and paths, and the block it mines. */
module NodeRules {
  import opened Words
  import opened Types
  import opened Ledger
  import opened TxRules
  import opened Difficulty
  import opened TimeRules
  import opened Pow
  import opened PathRules
  import opened NoReplay
  import opened Indexes
  import opened ForkChoice

  /** Chain id and transaction checks from position `i` on; a zero chain id reads as the node's own. */
  function CheckTxs(c: Config, txs: seq<Transaction>, i: nat, h: u64): Option<Error>
    decreases |txs| - i
  {
    if i >= |txs| then None
    else
      var tx := if txs[i].chainId == 0 then txs[i].(chainId := c.chainId) else txs[i];
      if tx.chainId != c.chainId then Some(WrongChainId)
      else
        var e := VerifyTx(c, tx, h);
        if e.Some? then e else CheckTxs(c, txs, i + 1, h)
  }

  /** The checks a block passes before the chain is looked at. */
  function Admission(c: Config, b: Block): Option<Error> {
    if b.height == 0 then Some(ExternalGenesis)
    else if b.version != BlockVersionForHeight(c.params, b.height) then Some(BadVersion)
    else if |b.hash| == 0 then Some(MissingHash)
    else if b.bits == 0 then Some(MissingDifficulty)
    else if b.bits > MAX_DIFFICULTY_BITS then Some(DifficultyOutOfRange)
    else
      match ValidatePow(c, b)
      case Err(e) => Some(e)
      case Ok(ok) => if !ok then Some(InvalidProofOfWork) else CheckTxs(c, b.txs, 0, b.height)
  }

  /** Difficulty in range and proof of work valid. */
  predicate PowOk(c: Config, b: Block) {
    0 < b.bits <= MAX_DIFFICULTY_BITS && ValidatePow(c, b) == Ok(true)
  }

  function RulesOf(c: Config): Rules {
    Rules(b => Admission(c, b),
          b => PowOk(c, b),
          path => Replay(c, path, Unbounded),
          (path: seq<Block>, now: i64) => Replay(c, path, At(now)),
          path => TxIndexOf(c, path),
          path => AddressIndexOf(c, path))
  }

  // ----- the rules are lawful -----

  lemma {:induction false} TxCheckErrors(c: Config, txs: seq<Transaction>, i: nat, h: u64)
    ensures CheckTxs(c, txs, i, h).Some? ==> !WalkError(CheckTxs(c, txs, i, h).value)
    decreases |txs| - i
  {
    if i < |txs| { TxCheckErrors(c, txs, i + 1, h); }
  }

  lemma AdmissionLaw(c: Config, b: Block)
    ensures Admission(c, b).None? ==> PowOk(c, b) && b.height != 0 && |b.hash| > 0
    ensures Admission(c, b).Some? ==> !WalkError(Admission(c, b).value)
  {
    TxCheckErrors(c, b.txs, 0, b.height);
  }

  lemma TxErrors(c: Config, st: State, tx: Transaction, i: nat, h: u64)
    ensures ApplyTx(c, st, tx, i, h).error.Some? ==> !WalkError(ApplyTx(c, st, tx, i, h).error.value)
  {
  }

  lemma {:induction false} LedgerErrors(c: Config, st: State, txs: seq<Transaction>, i: nat, h: u64)
    requires i <= |txs|
    ensures ApplyTxs(c, st, txs, i, h).error.Some? ==> !WalkError(ApplyTxs(c, st, txs, i, h).error.value)
    decreases |txs| - i
  {
    if i < |txs| {
      TxErrors(c, st, txs[i], i, h);
      LedgerErrors(c, ApplyTx(c, st, txs[i], i, h).state, txs, i + 1, h);
    }
  }

  lemma HeaderErrors(c: Config, parents: seq<Block>, b: Block, clock: Clock)
    ensures HeaderCheck(c, parents, b, clock).Some? ==> !WalkError(HeaderCheck(c, parents, b, clock).value)
  {
  }

  lemma ExtendErrors(c: Config, v: View, parents: seq<Block>, b: Block, clock: Clock)
    ensures Extend(c, v, parents, b, clock).Err? ==> !WalkError(Extend(c, v, parents, b, clock).error)
  {
    HeaderErrors(c, parents, b, clock);
    LedgerErrors(c, v.state, b.txs, 0, b.height);
  }

  lemma {:induction false} ReplayErrors(c: Config, path: seq<Block>, clock: Clock)
    ensures Replay(c, path, clock).Err? ==> !WalkError(Replay(c, path, clock).error)
  {
    if path != [] {
      var n := |path| - 1;
      ReplayErrors(c, path[..n], clock);
      if Replay(c, path[..n], clock).Ok? {
        ExtendErrors(c, Replay(c, path[..n], clock).value, path[..n], path[n], clock);
      }
    }
  }

  lemma WorkLaw(c: Config, path: seq<Block>, b: Block)
    requires PowOk(c, b) && Replay(c, path + [b], Unbounded).Ok?
    ensures Replay(c, path, Unbounded).Ok?
    ensures Replay(c, path + [b], Unbounded).value.work > Replay(c, path, Unbounded).value.work
  {
    assert (path + [b])[..|path + [b]| - 1] == path;
    ReplayAppend(c, path, b, Unbounded);
    WorkPositive(b.bits);
  }

  lemma RulesLawful(c: Config)
    ensures Lawful(RulesOf(c))
  {
    var r := RulesOf(c);
    forall b: Block
      ensures r.admission(b).None? ==> r.sealed(b) && b.height != 0 && |b.hash| > 0
      ensures r.admission(b).Some? ==> !WalkError(r.admission(b).value)
    {
      AdmissionLaw(c, b);
    }
    forall path: seq<Block>, now: i64
      ensures r.replayAt(path, now).Ok? ==> r.replay(path) == r.replayAt(path, now)
      ensures r.replayAt(path, now).Err? ==> !WalkError(r.replayAt(path, now).error)
    {
      ClockOnlyRejects(c, path, now);
      ReplayErrors(c, path, At(now));
    }
    forall path: seq<Block>, b: Block | r.sealed(b) && r.replay(path + [b]).Ok?
      ensures r.replay(path).Ok? && r.replay(path + [b]).value.work > r.replay(path).value.work
    {
      WorkLaw(c, path, b);
    }
  }

  // ----- mining -----

  /** The checks on the transfers to mine, from position `i` on. */
  function CheckTransfers(c: Config, txs: seq<Transaction>, i: nat, h: u64): Option<Error>
    decreases |txs| - i
  {
    if i >= |txs| then None
    else if !txs[i].kind.Transfer? then Some(OnlyTransfers)
    else
      var tx := if txs[i].chainId == 0 then txs[i].(chainId := c.chainId) else txs[i];
      if tx.chainId != c.chainId then Some(WrongChainId)
      else
        var e := VerifyTx(c, tx, h);
        if e.Some? then e
        else if tx.fee < MIN_FEE then Some(FeeTooLow)
        else CheckTransfers(c, txs, i + 1, h)
  }

  function NextHeight(s: Node): u64
    requires s.blocks != []
  {
    AddU64(s.blocks[|s.blocks| - 1].height, 1)
  }

  /** Now, or one second after the latest block when the clock is not past it. */
  function MiningTime(s: Node, now: i64): i64
    requires s.blocks != []
  {
    var latest := s.blocks[|s.blocks| - 1].timestamp;
    if now <= latest then WrapI64(latest + 1) else now
  }

  /** What a miner sets out to mine: its own address, the transfers, the clock and the coinbase text. */
  datatype Job = Job(miner: string, transfers: seq<Transaction>, now: i64, note: Bytes)

  function CoinbaseFor(c: Config, h: u64, job: Job): Transaction {
    Transaction(Coinbase, c.chainId, None, job.miner, ExpectedCoinbase(c.params.policy, h, FeesFrom(job.transfers, 0)),
                0, 0, job.note, None)
  }

  /** The block to mine, before the nonce search. */
  function Candidate(c: Config, s: Node, job: Job): Block
    requires s.blocks != []
  {
    Block(BlockVersionForHeight(c.params, NextHeight(s)), NextHeight(s), MiningTime(s, job.now),
          s.blocks[|s.blocks| - 1].hash, 0,
          NextBits(c.params, s.blocks), job.miner, [CoinbaseFor(c, NextHeight(s), job)] + job.transfers, [])
  }

  function Seal(c: Config, b: Block, nonce: u64): Block
    requires HeaderOf(c, b, nonce).Some?
  {
    b.(nonce := nonce, hash := c.env.sha(HeaderOf(c, b, nonce).value))
  }

  /** The mined block on top of the chain, with every view of it updated incrementally. */
  function AppendBlock(c: Config, s: Node, b: Block, state: State): Node {
    Node(s.store[b.hash := b], s.blocks + [b], state, b.hash, s.work + WorkForBits(b.bits),
         FoldTx(c, s.txIndex, PostedFrom(b, 0)), FoldAddress(c, s.addressIndex, PostedFrom(b, 0)))
  }

  datatype MineOutcome = MineOutcome(node: Node, block: Result<Block, Error>)

  /** The ledger step, the store call and the update of the chain for a sealed block. The accounts are
      changed in place, so an error in either leaves them changed. */
  function Commit(c: Config, s: Node, b: Block, appendOk: bool): MineOutcome {
    var a := ApplyBlock(c, s.state, b);
    if a.error.Some? then MineOutcome(s.(state := a.state), Err(a.error.value))
    else if !appendOk then MineOutcome(s.(state := a.state), Err(StoreFailed))
    else MineOutcome(AppendBlock(c, s, b, a.state), Ok(b))
  }

  /** MineTransfers once the search has settled on `nonce`. */
  function Mine(c: Config, s: Node, job: Job, nonce: u64, appendOk: bool): MineOutcome
    requires s.blocks != []
  {
    var refused := CheckTransfers(c, job.transfers, 0, NextHeight(s));
    if refused.Some? then MineOutcome(s, Err(refused.value))
    else
      var b := Candidate(c, s, job);
      if HeaderOf(c, b, nonce).None? then MineOutcome(s, Err(HeaderFailed))
      else Commit(c, s, Seal(c, b, nonce), appendOk)
  }
}
