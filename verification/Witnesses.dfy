/** Fresh nodes at which mining goes wrong. */
module Witnesses {
  import opened Words
  import opened Types
  import opened Encoding
  import opened TxRules
  import opened Ledger
  import opened Monetary
  import opened TimeRules
  import opened Pow
  import opened PathRules
  import opened ForkChoice
  import opened NodeRules
  import opened MiningTheorems
  import opened MiningFailures
  import opened Soundness
  import opened Traces
  import opened Mempools
  import opened Selection

  const MINER := "miner"

  function Zeros(n: nat): (s: Bytes)
    ensures |s| == n
  {
    seq(n, _ => 0)
  }

  lemma {:induction false} ZerosAreZero(n: nat)
    ensures FromBE(Zeros(n)) == 0
  {
    if n > 0 {
      ZerosAreZero(n - 1);
      assert Zeros(n)[..n - 1] == Zeros(n - 1);
    }
  }

  /** A hash that tells an even first byte from an odd one. */
  function Parity(x: Bytes): Digest { Zeros(31) + [if x == [] then 0 else x[0] % 2] }

  lemma ParityValue(x: Bytes)
    ensures FromBE(Parity(x)) == if x == [] then 0 else x[0] % 2
  {
    ZerosAreZero(31);
    assert Parity(x)[..31] == Zeros(31);
  }

  /** A header of height and parent. */
  function HeightAndParent(b: Block): Bytes { LE(b.height, 8) + b.prevHash }

  /** One account signs everything, every encoding works, and the hashes of even and odd heights differ. */
  function OpenEnv(): Env {
    Env((x: Bytes) => Parity(x),
        (b: Block, _: u64) => Some(HeightAndParent(b)),
        (_: Transaction) => Some([0x7B]),
        (_: Bytes, _: Digest, _: Bytes) => true,
        (_: string) => true,
        (_: Bytes) => MINER,
        (_: Block) => 0)
  }

  /** A subsidy of one unit, all fees burned, and any fixed difficulty. */
  function OpenConfig(bits: u32): Config {
    Config(OpenEnv(),
           ConsensusParams(false, 1_000_000_000, 1, 1, bits, bits, bits, 11, 1, 1, false, 0, false, 0,
                           MonetaryPolicy(1, 1000, 0, 0)),
           1)
  }

  lemma OpenHeader(bits: u32, b: Block, nonce: u64)
    ensures var h := HeaderOf(OpenConfig(bits), b, nonce);
            h.Some? && OpenEnv().sha(h.value)[31] == b.height % 2 && FromBE(OpenEnv().sha(h.value)) == b.height % 2
  {
    ParityOfHeight(b);
  }

  lemma ParityOfHeight(b: Block)
    ensures Parity(HeightAndParent(b))[31] == b.height % 2 && FromBE(Parity(HeightAndParent(b))) == b.height % 2
  {
    ParityValue(HeightAndParent(b));
    assert LE(b.height, 8)[0] == b.height % 256;
  }

  /** A genesis block that allocates the supply to the miner. */
  function MinersGenesis(bits: u32, supply: u64): Block {
    Block(1, 0, 0, [], 0, bits, MINER, [Transaction(Coinbase, 1, None, MINER, supply, 0, 0, [], None)],
          Parity(LE(0, 8)))
  }

  function AllToMiner(supply: u64): State { map[MINER := Account(supply, 0)] }

  /** The miner sends one unit. */
  function Spend(chainId: u64, fee: u64, nonce: u64): Transaction {
    Transaction(Transfer, chainId, Some(Zeros(32)), "other", 1, fee, nonce, [], Some(Zeros(64)))
  }

  // ----- the node -----

  lemma GenesisApplies(bits: u32, supply: u64)
    requires supply > 0
    ensures ApplyBlock(OpenConfig(bits), map[], MinersGenesis(bits, supply)) == Applied(AllToMiner(supply), None)
  {
    var c, g := OpenConfig(bits), MinersGenesis(bits, supply);
    assert VerifyTx(c, g.txs[0], 0).None?;
    assert ApplyTx(c, map[], g.txs[0], 0, 0) == Applied(Credit(map[], MINER, supply), None);
    assert Credit(map[], MINER, supply) == AllToMiner(supply);
    assert ApplyTxs(c, AllToMiner(supply), g.txs, 1, 0) == Applied(AllToMiner(supply), None);
    assert BlockPrecheck(c, g).None?;
  }

  lemma GenesisReplays(bits: u32, supply: u64)
    requires supply > 0
    ensures Replay(OpenConfig(bits), [MinersGenesis(bits, supply)], Unbounded)
            == Ok(View(AllToMiner(supply), WorkForBits(bits)))
  {
    var c, g := OpenConfig(bits), MinersGenesis(bits, supply);
    GenesisApplies(bits, supply);
    assert Replay(c, [], Unbounded) == Ok(View(map[], 0));
    ReplayGrows(c, [], g, Unbounded, map[], 0, AllToMiner(supply));
    assert [] + [g] == [g];
  }

  lemma GenesisIsSealed(bits: u32, supply: u64)
    requires 0 < bits <= MAX_DIFFICULTY_BITS
    ensures PowOk(OpenConfig(bits), MinersGenesis(bits, supply))
  {
    var g := MinersGenesis(bits, supply);
    OpenHeader(bits, g, 0);
    assert HeightAndParent(Unsealed(g)) == LE(0, 8);
    Pow2Positive(MAX_DIFFICULTY_BITS - bits);
  }

  /** The genesis is one a node may start from, and gives the miner everything. */
  lemma MinersGenesisIsFresh(bits: u32, supply: u64)
    requires 0 < bits <= MAX_DIFFICULTY_BITS && supply > 0
    ensures FreshGenesis(OpenConfig(bits), MinersGenesis(bits, supply))
    ensures Fresh(OpenConfig(bits), MinersGenesis(bits, supply)).node.blocks == [MinersGenesis(bits, supply)]
    ensures Fresh(OpenConfig(bits), MinersGenesis(bits, supply)).node.state == AllToMiner(supply)
  {
    GenesisIsSealed(bits, supply);
    GenesisReplays(bits, supply);
  }

  ghost function StartNode(bits: u32, supply: u64): (s: Node)
    requires 0 < bits <= MAX_DIFFICULTY_BITS && supply > 0
    ensures s.blocks == [MinersGenesis(bits, supply)] && s.state == AllToMiner(supply)
  {
    MinersGenesisIsFresh(bits, supply);
    Fresh(OpenConfig(bits), MinersGenesis(bits, supply)).node
  }

  // ----- a block of one transfer -----

  lemma FirstReward(bits: u32, t: Transaction)
    ensures ExpectedCoinbase(OpenConfig(bits).params.policy, 1, FeesFrom([t], 0)) == 1
  {
    var m := OpenConfig(bits).params.policy;
    assert BlockReward(m, 1) == 1;
    assert MinerFeeAmount(m, FeesFrom([t], 0) % TWO64) == 0;
  }

  lemma TwoApplied(c: Config, st: State, b: Block, cb: Transaction, t: Transaction)
    requires b.txs == [cb, t] && BlockPrecheck(c, b).None?
    requires VerifyTx(c, cb, b.height).None? && t.kind.Transfer? && VerifyTx(c, t, b.height).None?
    ensures ApplyBlock(c, st, b) == ApplyTransfer(Credit(st, cb.toAddress, cb.amount), Sender(c.env, t), t)
  {
    var credited := Credit(st, cb.toAddress, cb.amount);
    assert ApplyTx(c, st, b.txs[0], 0, b.height) == Applied(credited, None);
    var r := ApplyTx(c, credited, t, 1, b.height);
    assert r == ApplyTransfer(credited, Sender(c.env, t), t);
    assert ApplyTxs(c, r.state, b.txs, 2, b.height) == Applied(r.state, None);
    assert b.txs[1] == t;
    assert ApplyTxs(c, credited, b.txs, 1, b.height) == r;
  }

  /** No early guard stops a block with one transfer, and it applies as the transfer does after the subsidy. */
  lemma OneSpend(bits: u32, s: Node, job: Job, nonce: u64, k: u64)
    requires |s.blocks| == 1 && s.blocks[0].height == 0 && job.miner == MINER && k > 0
             && job.transfers == [Spend(1, 1, k)]
    ensures var c := OpenConfig(bits);
            && !StopsEarly(c, s, job, nonce) && CheckTransfers(c, job.transfers, 0, NextHeight(s)).None?
            && HeaderOf(c, Candidate(c, s, job), nonce).Some?
            && forall st :: ApplyBlock(c, st, Seal(c, Candidate(c, s, job), nonce))
                            == ApplyTransfer(Credit(st, MINER, 1), MINER, Spend(1, 1, k))
  {
    var c, t := OpenConfig(bits), Spend(1, 1, k);
    FirstReward(bits, t);
    var b := Seal(c, Candidate(c, s, job), nonce);
    var cb := b.txs[0];
    assert b.txs == [cb, t] && cb.amount == 1 && cb.toAddress == MINER;
    assert FeesFrom(b.txs, 1) == FeesFrom([t], 0);
    assert VerifyTx(c, cb, 1).None? && VerifyTx(c, t, 1).None?;
    assert CheckTransfers(c, job.transfers, 1, 1).None?;
    assert BlockPrecheck(c, b).None?;
    forall st ensures ApplyBlock(c, st, b) == ApplyTransfer(Credit(st, MINER, 1), MINER, t) {
      TwoApplied(c, st, b, cb, t);
    }
  }

  // ----- picked, and not mined -----

  lemma SpendIsPicked(bits: u32, supply: u64, e: Entry, chainId: u64, fee: u64)
    requires e.tx == Spend(chainId, fee, 1) && chainId > 0 && 1 + fee <= supply
    ensures Select(OpenConfig(bits), AllToMiner(supply), [e], 1, 1).picked == [e.tx]
  {
    var c, st := OpenConfig(bits), AllToMiner(supply);
    assert VerifyTx(c, e.tx, 1).None?;
    assert ApplyTransfer(st, MINER, e.tx).error.None?;
    assert Select(c, st, [], 1, 1) == Choice([], [], st);
    assert [e][..0] == [];
  }

  /** On a fresh node whose miner owns 2^64 - 1 units, the miner's own transfer, alone in the pool, is picked and passes
      every early guard; the subsidy then wraps the miner's balance to zero, and the transfer lacks funds. */
  lemma PickedButNotMined(bits: u32, e: Entry, job: Job, nonce: u64)
    requires 0 < bits <= MAX_DIFFICULTY_BITS && e.tx == Spend(1, 1, 1) && job.miner == MINER && job.transfers == [e.tx]
    ensures FreshGenesis(OpenConfig(bits), MinersGenesis(bits, TWO64 - 1))
    ensures var c, s := OpenConfig(bits), StartNode(bits, TWO64 - 1);
            && Select(c, s.state, [e], 1, NextHeight(s)).picked == job.transfers
            && !StopsEarly(c, s, job, nonce)
            && Mine(c, s, job, nonce, true).block == Err(InsufficientFunds)
  {
    MinersGenesisIsFresh(bits, TWO64 - 1);
    SpendIsPicked(bits, TWO64 - 1, e, 1, 1);
    OneSpend(bits, StartNode(bits, TWO64 - 1), job, nonce, 1);
    RichMinerIsNotCovered(MINER, e.tx);
  }

  /** On any fresh node of this kind a transfer without a fee, or for another chain, is picked and then refused. */
  lemma PickedButRefused(bits: u32, supply: u64, e: Entry, job: Job, nonce: u64)
    requires 0 < bits <= MAX_DIFFICULTY_BITS && supply > 1 && job.transfers == [e.tx]
    requires e.tx == Spend(1, 0, 1) || e.tx == Spend(2, 1, 1)
    ensures FreshGenesis(OpenConfig(bits), MinersGenesis(bits, supply))
    ensures var c, s := OpenConfig(bits), StartNode(bits, supply);
            && Select(c, s.state, [e], 1, NextHeight(s)).picked == job.transfers
            && Mine(c, s, job, nonce, true) == MineOutcome(s, Err(if e.tx.fee == 0 then FeeTooLow else WrongChainId))
  {
    MinersGenesisIsFresh(bits, supply);
    SpendIsPicked(bits, supply, e, e.tx.chainId, e.tx.fee);
    assert VerifyTx(OpenConfig(bits), e.tx, 1).None?;
  }

  // ----- mining on accounts left behind -----

  /** The store does not take the miner's first transfer. The accounts keep it, so the miner's second transfer mines, on
      the same parent; nothing else is amiss, but the block does not fit the accounts of the chain, and the chain with
      it is one no validator accepts. */
  lemma StaleAccountsBreakChain(bits: u32, supply: u64, first: Job, second: Job, nonce1: u64, nonce2: u64)
    requires 0 < bits < MAX_DIFFICULTY_BITS && 3 <= supply < TWO64 - 2
    requires first.miner == second.miner == MINER
    requires first.transfers == [Spend(1, 1, 1)] && second.transfers == [Spend(1, 1, 2)]
    ensures FreshGenesis(OpenConfig(bits), MinersGenesis(bits, supply))
    ensures var c, g, s := OpenConfig(bits), MinersGenesis(bits, supply), StartNode(bits, supply);
            var left := Mine(c, s, first, nonce1, false);
            && left.block == Err(StoreFailed)
            && Mined(c, g, left.node, second, nonce2) && MiningOk(c, left.node, second, nonce2)
            && var out := Mine(c, left.node, second, nonce2, true);
               && !Fits(c, left.node, out.block.value) && !Sound(c, g, out.node)
               && Replay(c, out.node.blocks, Unbounded) == Err(BadNonce)
  {
    MinersGenesisIsFresh(bits, supply);
    var c, g, s := OpenConfig(bits), MinersGenesis(bits, supply), StartNode(bits, supply);
    FirstIsLeft(bits, supply, s, first, nonce1);
    var left := Mine(c, s, first, nonce1, false);
    LeftIsSound(bits, supply, first, nonce1);
    SecondMines(bits, supply, left.node, second, nonce2);
    SecondIsMineable(bits, supply, left.node, second, nonce2);
    var b := Mine(c, left.node, second, nonce2, true).block.value;
    GenesisReplays(bits, supply);
    SecondHeader(bits, supply, left.node, second, nonce2);
    SecondOnGenesis(c, s.blocks, b, AllToMiner(supply), WorkForBits(bits));
    GenesisAccounts(bits, supply, left.node);
    MineKeepsSoundIff(c, g, left.node, second, nonce2);
  }

  lemma LeftIsSound(bits: u32, supply: u64, job: Job, nonce: u64)
    requires 0 < bits <= MAX_DIFFICULTY_BITS && supply > 0
    requires Mine(OpenConfig(bits), StartNode(bits, supply), job, nonce, false).block.Err?
    ensures var c, g := OpenConfig(bits), MinersGenesis(bits, supply);
            var n := Mine(c, StartNode(bits, supply), job, nonce, false).node;
            Sound(c, g, n) && n.store == map[g.hash := g]
  {
    var c, g, s := OpenConfig(bits), MinersGenesis(bits, supply), StartNode(bits, supply);
    MinersGenesisIsFresh(bits, supply);
    GenesisInv(RulesOf(c), g);
    FollowsIsClean(c, g, s);
    FailedMiningIsRepaired(c, g, s, job, nonce, false);
  }

  lemma GenesisAccounts(bits: u32, supply: u64, s: Node)
    requires supply > 0 && s.blocks == [MinersGenesis(bits, supply)]
    ensures Accounts(OpenConfig(bits), s) == AllToMiner(supply)
  {
    GenesisReplays(bits, supply);
    ReplayValue(OpenConfig(bits), s.blocks, Unbounded);
  }

  lemma SecondIsMineable(bits: u32, supply: u64, s: Node, job: Job, nonce: u64)
    requires 0 < bits < MAX_DIFFICULTY_BITS
    requires s.blocks == [MinersGenesis(bits, supply)] && s.store.Keys == {MinersGenesis(bits, supply).hash}
    ensures MiningOk(OpenConfig(bits), s, job, nonce)
  {
    var c, b := OpenConfig(bits), Candidate(OpenConfig(bits), s, job);
    OpenHeader(bits, b, nonce);
    OpenHeader(bits, MinersGenesis(bits, supply), 0);
    assert HeightAndParent(Unsealed(MinersGenesis(bits, supply))) == LE(0, 8);
    Pow2Positive(MAX_DIFFICULTY_BITS - bits - 1);
    assert Pow2(MAX_DIFFICULTY_BITS - bits) == 2 * Pow2(MAX_DIFFICULTY_BITS - bits - 1);
  }

  lemma FirstIsLeft(bits: u32, supply: u64, s: Node, job: Job, nonce: u64)
    requires 3 <= supply < TWO64 - 2 && s.blocks == [MinersGenesis(bits, supply)] && s.state == AllToMiner(supply)
    requires job.miner == MINER && job.transfers == [Spend(1, 1, 1)]
    ensures var left := Mine(OpenConfig(bits), s, job, nonce, false);
            left.block == Err(StoreFailed) && left.node.blocks == s.blocks
                && Lookup(left.node.state, MINER) == Account(supply - 1, 1)
  {
    OneSpend(bits, s, job, nonce, 1);
  }

  lemma SecondMines(bits: u32, supply: u64, s: Node, job: Job, nonce: u64)
    requires 3 <= supply < TWO64 - 2 && s.blocks == [MinersGenesis(bits, supply)]
    requires Lookup(s.state, MINER) == Account(supply - 1, 1)
    requires job.miner == MINER && job.transfers == [Spend(1, 1, 2)]
    ensures var c := OpenConfig(bits);
            var out := Mine(c, s, job, nonce, true);
            && HeaderOf(c, Candidate(c, s, job), nonce).Some?
            && out.block == Ok(Seal(c, Candidate(c, s, job), nonce)) && out.node.blocks == s.blocks + [out.block.value]
            && ApplyBlock(c, AllToMiner(supply), out.block.value).error == Some(BadNonce)
  {
    OneSpend(bits, s, job, nonce, 2);
  }

  lemma SecondHeader(bits: u32, supply: u64, s: Node, job: Job, nonce: u64)
    requires 0 < bits <= MAX_DIFFICULTY_BITS && s.blocks == [MinersGenesis(bits, supply)] && supply > 0
    requires HeaderOf(OpenConfig(bits), Candidate(OpenConfig(bits), s, job), nonce).Some?
    ensures var c := OpenConfig(bits);
            HeaderCheck(c, s.blocks, Seal(c, Candidate(c, s, job), nonce), Unbounded).None?
  {
    GenesisReplays(bits, supply);
    CandidateHeader(OpenConfig(bits), s, job, Seal(OpenConfig(bits), Candidate(OpenConfig(bits), s, job), nonce));
  }

  lemma SecondOnGenesis(c: Config, chain: seq<Block>, b: Block, st: State, work: nat)
    requires Replay(c, chain, Unbounded) == Ok(View(st, work)) && ApplyBlock(c, st, b).error.Some?
    requires HeaderCheck(c, chain, b, Unbounded).None?
    ensures Replay(c, chain + [b], Unbounded) == Err(ApplyBlock(c, st, b).error.value)
  {
    ReplayAppend(c, chain, b, Unbounded);
  }
}
