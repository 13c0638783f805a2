/** Mining agrees with validation: what the miner builds is what any validator accepts. */
module MiningTheorems {
  import opened Words
  import opened Types
  import opened Ledger
  import opened TxRules
  import opened Difficulty
  import opened TimeRules
  import opened Pow
  import opened PathRules
  import opened BlockTree
  import opened Indexes
  import opened ForkChoice
  import opened NodeRules
  import Merkle

  lemma NextBitsUsable(p: ConsensusParams, path: seq<Block>)
    requires ParamsOk(p)
    ensures 0 < NextBits(p, path) <= MAX_DIFFICULTY_BITS
  {
  }

  /** The mined timestamp is later than the latest block's, unless that one is the last int64. */
  lemma MiningTimeAdvances(s: Node, now: i64)
    requires s.blocks != []
    ensures var latest := s.blocks[|s.blocks| - 1].timestamp;
            MiningTime(s, now) > latest <==> latest < MAX_I64
  {
  }

  /** The mined timestamp is the clock whenever that is past the latest block, and one second after the block otherwise,
      in int64. */
  lemma MiningTimeIsClock(s: Node, now: i64)
    requires s.blocks != []
    ensures var latest := s.blocks[|s.blocks| - 1].timestamp;
            && (now > latest ==> MiningTime(s, now) == now)
            && (now <= latest < MAX_I64 ==> MiningTime(s, now) == latest + 1)
            && (latest == MAX_I64 ==> MiningTime(s, now) == -TWO63)
  {
  }

  /** The candidate passes every header rule on the extended path (wall clock aside) exactly when the
      latest timestamp is not the last int64. */
  lemma CandidateHeader(c: Config, s: Node, job: Job, b: Block)
    requires Accepted(c, s.blocks, Unbounded) && ParamsOk(c.params)
    requires b.(hash := [], nonce := 0) == Candidate(c, s, job)
    ensures HeaderCheck(c, s.blocks, b, Unbounded).None? <==> s.blocks[|s.blocks| - 1].timestamp < MAX_I64
  {
    AcceptedTimesIncrease(c, s.blocks, Unbounded);
    MedianIsMiddle(c.params, s.blocks, |s.blocks| - 1);
    NextBitsUsable(c.params, s.blocks);
    MiningTimeAdvances(s, job.now);
  }

  /** Where it goes wrong: on a tip at the last int64 every candidate steps back in time. */
  lemma LastSecondFails(c: Config, s: Node, job: Job, b: Block)
    requires s.blocks != [] && s.blocks[|s.blocks| - 1].timestamp == MAX_I64
    requires b.(hash := [], nonce := 0) == Candidate(c, s, job)
    ensures HeaderCheck(c, s.blocks, b, Unbounded) == Some(TimestampNotIncreasing)
  {
    assert MiningTime(s, job.now) == WrapI64(MAX_I64 + 1) == -TWO63;
  }

  /** There mining still succeeds, and leaves a chain that no validator accepts. */
  lemma LastSecondBreaksChain(c: Config, s: Node, job: Job, nonce: u64)
    requires s.blocks != [] && s.blocks[|s.blocks| - 1].timestamp == MAX_I64
    requires Mine(c, s, job, nonce, true).block.Ok?
    ensures Replay(c, Mine(c, s, job, nonce, true).node.blocks, Unbounded).Err?
  {
    var b := MinedShape(c, s, job, nonce);
    LastSecondFails(c, s, job, b);
    if Replay(c, s.blocks + [b], Unbounded).Ok? {
      assert (s.blocks + [b])[..|s.blocks|] == s.blocks && (s.blocks + [b])[|s.blocks|] == b;
      AcceptedHeader(c, s.blocks + [b], |s.blocks|, Unbounded);
    }
  }

  // ----- a mined hash is new -----

  /** The header encoding shows the height, and the parent when there is one. */
  ghost predicate HeaderNamesParent(env: Env) {
    forall a: Block, m: u64, b: Block, n: u64 ::
      env.header(a, m).Some? && env.header(a, m) == env.header(b, n) ==>
        a.height == b.height && (|a.prevHash| > 0 && |b.prevHash| > 0 ==> a.prevHash == b.prevHash)
  }

  ghost function StoredHeaders(c: Config, store: Store): set<Bytes> {
    set h | h in store && HeaderOf(c, store[h], store[h].nonce).Some? :: HeaderOf(c, store[h], store[h].nonce).value
  }

  /** SHA-256 does not collide on the headers stored so far and the one just mined. */
  ghost predicate FreshHeader(c: Config, store: Store, header: Bytes) {
    Merkle.NoCollisions(c.env.sha, StoredHeaders(c, store) + {header})
  }

  /** A stored block with the hash of `header` has that very header. */
  lemma SameHashSameHeader(c: Config, g: Block, store: Store, header: Bytes, h: Bytes)
    requires StoreOk(RulesOf(c), g, store) && h in store
    requires FreshHeader(c, store, header) && h == c.env.sha(header)
    ensures HeaderOf(c, store[h], store[h].nonce) == Some(header)
  {
    assert StoredOk(RulesOf(c), g, store, h);
    assert PowOk(c, store[h]);
    assert HeaderOf(c, store[h], store[h].nonce).value in StoredHeaders(c, store);
  }

  lemma MinedHashIsNew(c: Config, g: Block, s: Node, b: Block, nonce: u64)
    requires Inv(RulesOf(c), g, s) && HeaderNamesParent(c.env)
    requires b.prevHash == s.tip && b.height > 0 && HeaderOf(c, b, nonce).Some?
    requires FreshHeader(c, s.store, HeaderOf(c, b, nonce).value)
    ensures c.env.sha(HeaderOf(c, b, nonce).value) !in s.store
  {
    var h: Bytes := c.env.sha(HeaderOf(c, b, nonce).value);
    if h in s.store {
      SameHashSameHeader(c, g, s.store, HeaderOf(c, b, nonce).value, h);
      assert Unsealed(s.store[h]).height == Unsealed(b).height;
      RulesLawful(c);
      TipBlock(RulesOf(c), g, s);
      if IsRoot(s.store[h]) {
        RootIsGenesis(RulesOf(c), g, s.store, h);
      } else {
        TipHasNoChild(RulesOf(c), g, s, h);
      }
    }
  }

  // ----- mining keeps the invariant -----

  /** The nonce solves the candidate, as the search sees to, and its hash is new, as `MinedHashIsNew` shows absent
      collisions. */
  ghost predicate Mineable(c: Config, s: Node, job: Job, nonce: u64)
    requires s.blocks != []
  {
    var b := Candidate(c, s, job);
    && ParamsOk(c.params)
    && (b.bits <= MAX_DIFFICULTY_BITS && HeaderOf(c, b, nonce).Some? ==>
          Solves(c, b, nonce) && c.env.sha(HeaderOf(c, b, nonce).value) !in s.store)
  }

  /** There is room for one more height and one more second. */
  predicate Room(s: Node)
    requires s.blocks != []
  {
    s.blocks[|s.blocks| - 1].height + 1 < TWO64 && s.blocks[|s.blocks| - 1].timestamp < MAX_I64
  }

  ghost predicate MiningOk(c: Config, s: Node, job: Job, nonce: u64)
    requires s.blocks != []
  {
    Mineable(c, s, job, nonce) && Room(s)
  }

  /** Updating the views of a chain in place equals rebuilding them for the longer chain. */
  lemma AppendIsAdopt(c: Config, s: Node, b: Block, state: State)
    requires s.txIndex == TxIndexOf(c, s.blocks) && s.addressIndex == AddressIndexOf(c, s.blocks)
    ensures AppendBlock(c, s, b, state)
            == Adopt(RulesOf(c), s.store[b.hash := b], s.blocks + [b], View(state, s.work + WorkForBits(b.bits)),
                     b.hash)
  {
    IncrementalIndex(c, s.blocks, b);
  }

  /** What the invariant says of the chain, spelled out for the node's rules. */
  lemma ChainOf(c: Config, g: Block, s: Node)
    requires Follows(RulesOf(c), g, s)
    ensures s.blocks != [] && s.blocks[|s.blocks| - 1].hash == s.tip
    ensures Accepted(c, s.blocks, Unbounded) && Replay(c, s.blocks, Unbounded) == Ok(View(s.state, s.work))
    ensures s.txIndex == TxIndexOf(c, s.blocks) && s.addressIndex == AddressIndexOf(c, s.blocks)
  {
    TipBlock(RulesOf(c), g, s);
  }

  /** The sealed candidate is new, solved, and sits on the tip. */
  lemma SealedCandidate(c: Config, g: Block, s: Node, job: Job, nonce: u64)
    requires Follows(RulesOf(c), g, s) && s.blocks != [] && MiningOk(c, s, job, nonce)
    requires HeaderOf(c, Candidate(c, s, job), nonce).Some?
    ensures var b := Seal(c, Candidate(c, s, job), nonce);
            && b.prevHash == s.tip && b.height == NextHeight(s) > 0 && |b.hash| > 0 && b.hash !in s.store && PowOk(c, b)
            && b.version == BlockVersionForHeight(c.params, b.height)
            && HeaderCheck(c, s.blocks, b, Unbounded).None?
  {
    var cand := Candidate(c, s, job);
    ChainOf(c, g, s);
    NextBitsUsable(c.params, s.blocks);
    MinedPowIsValid(c, cand, nonce);
    CandidateHeader(c, s, job, Seal(c, cand, nonce));
  }

  /** The view of the chain with one more valid block. */
  lemma LongerView(c: Config, s: Node, b: Block, state: State)
    requires Replay(c, s.blocks, Unbounded) == Ok(View(s.state, s.work))
    requires HeaderCheck(c, s.blocks, b, Unbounded).None? && ApplyBlock(c, s.state, b) == Applied(state, None)
    ensures RulesOf(c).replay(s.blocks + [b]) == Ok(View(state, s.work + WorkForBits(b.bits)))
  {
    ReplayGrows(c, s.blocks, b, Unbounded, s.state, s.work, state);
  }

  /** Appending a sealed block whose path replays is what becomes of a node it joins. */
  lemma AppendIsJoined(c: Config, g: Block, s: Node, b: Block, v: View)
    requires Follows(RulesOf(c), g, s)
    requires b.prevHash == s.tip && b.height != 0 && |b.hash| > 0 && b.hash !in s.store && PowOk(c, b)
    requires RulesOf(c).replay(s.blocks + [b]) == Ok(v) && v.work == s.work + WorkForBits(b.bits)
    ensures Joins(RulesOf(c), s, b, s.blocks + [b], v) && v.work > s.work
    ensures AppendBlock(c, s, b, v.state) == Joined(RulesOf(c), s, b, s.blocks + [b], v)
  {
    WorkPositive(b.bits);
    ExtensionJoins(RulesOf(c), g, s, b, v);
    AppendIsAdopt(c, s, b, v.state);
  }

  /** A successful mining step: the block joins on top of the tip. */
  lemma MineJoins(c: Config, g: Block, s: Node, job: Job, nonce: u64, appendOk: bool) returns (b: Block, v: View)
    requires Follows(RulesOf(c), g, s) && s.blocks != [] && MiningOk(c, s, job, nonce)
    requires Mine(c, s, job, nonce, appendOk).block.Ok?
    ensures b == Mine(c, s, job, nonce, appendOk).block.value && v.work > s.work
    ensures Joins(RulesOf(c), s, b, s.blocks + [b], v)
    ensures Mine(c, s, job, nonce, appendOk).node == Joined(RulesOf(c), s, b, s.blocks + [b], v)
  {
    b := Seal(c, Candidate(c, s, job), nonce);
    v := View(ApplyBlock(c, s.state, b).state, s.work + WorkForBits(b.bits));
    SealedCandidate(c, g, s, job, nonce);
    ChainOf(c, g, s);
    LongerView(c, s, b, v.state);
    AppendIsJoined(c, g, s, b, v);
  }

  lemma MineKeepsFollows(c: Config, g: Block, s: Node, job: Job, nonce: u64, appendOk: bool)
    requires Follows(RulesOf(c), g, s) && s.blocks != [] && MiningOk(c, s, job, nonce)
    requires Mine(c, s, job, nonce, appendOk).block.Ok?
    ensures Follows(RulesOf(c), g, Mine(c, s, job, nonce, appendOk).node)
  {
    var b, v := MineJoins(c, g, s, job, nonce, appendOk);
    JoinKeepsFollows(RulesOf(c), g, s, b, s.blocks + [b], v);
  }

  /** A successful mining step keeps the invariant; its block is new, becomes the tip, and adds work. */
  lemma MineKeepsInv(c: Config, g: Block, s: Node, job: Job, nonce: u64, appendOk: bool)
    requires Inv(RulesOf(c), g, s) && s.blocks != [] && MiningOk(c, s, job, nonce)
    requires Mine(c, s, job, nonce, appendOk).block.Ok?
    ensures var out := Mine(c, s, job, nonce, appendOk);
            && Inv(RulesOf(c), g, out.node)
            && out.block.value.hash !in s.store && out.node.tip == out.block.value.hash
            && out.node.work > s.work
  {
    var b, v := MineJoins(c, g, s, job, nonce, appendOk);
    JoinKeepsInv(RulesOf(c), g, s, b, s.blocks + [b], v);
  }

  /** A mined block has strictly more work behind it than any block stored before. */
  lemma MinedBeatsAll(c: Config, g: Block, s: Node, job: Job, nonce: u64, appendOk: bool, h: Bytes)
    requires Inv(RulesOf(c), g, s) && s.blocks != [] && MiningOk(c, s, job, nonce)
    requires Mine(c, s, job, nonce, appendOk).block.Ok? && h in s.store
    ensures Mine(c, s, job, nonce, appendOk).node.work > WorkOf(RulesOf(c), g, s.store, h)
  {
    MineKeepsInv(c, g, s, job, nonce, appendOk);
    RulesLawful(c);
    TipIsUniqueBest(RulesOf(c), g, s, h);
  }

  // ----- the mined block passes admission -----

  lemma {:induction false} AppliedAreVerified(c: Config, st: State, txs: seq<Transaction>, i: nat, h: u64, j: nat)
    requires i <= j < |txs| && ApplyTxs(c, st, txs, i, h).error.None?
    ensures VerifyTx(c, txs[j], h).None?
    decreases |txs| - i
  {
    if i < j { AppliedAreVerified(c, ApplyTx(c, st, txs[i], i, h).state, txs, i + 1, h, j); }
  }

  lemma {:induction false} TransfersHaveChainId(c: Config, txs: seq<Transaction>, i: nat, h: u64, j: nat)
    requires i <= j < |txs| && CheckTransfers(c, txs, i, h).None?
    ensures txs[j].chainId == 0 || txs[j].chainId == c.chainId
    decreases |txs| - i
  {
    if i < j { TransfersHaveChainId(c, txs, i + 1, h, j); }
  }

  lemma {:induction false} VerifiedPassTxCheck(c: Config, txs: seq<Transaction>, i: nat, h: u64)
    requires forall j :: i <= j < |txs| ==> VerifyTx(c, txs[j], h).None? && txs[j].chainId == c.chainId
    ensures CheckTxs(c, txs, i, h).None?
    decreases |txs| - i
  {
    if i < |txs| {
      assert VerifyTx(c, txs[i], h).None?;
      VerifiedPassTxCheck(c, txs, i + 1, h);
    }
  }

  lemma MinedTxsPass(c: Config, st: State, cb: Transaction, transfers: seq<Transaction>, h: u64)
    requires cb.chainId == c.chainId && CheckTransfers(c, transfers, 0, h).None?
    requires ApplyTxs(c, st, [cb] + transfers, 0, h).error.None?
    ensures CheckTxs(c, [cb] + transfers, 0, h).None?
  {
    var txs := [cb] + transfers;
    forall j | 0 <= j < |txs| ensures VerifyTx(c, txs[j], h).None? && txs[j].chainId == c.chainId {
      AppliedAreVerified(c, st, txs, 0, h, j);
      if j > 0 {
        assert txs[j] == transfers[j - 1];
        TransfersHaveChainId(c, transfers, 0, h, j - 1);
      }
    }
    VerifiedPassTxCheck(c, txs, 0, h);
  }

  lemma MinedIsAdmitted(c: Config, g: Block, s: Node, job: Job, nonce: u64)
    requires Follows(RulesOf(c), g, s) && s.blocks != [] && MiningOk(c, s, job, nonce)
    requires Mine(c, s, job, nonce, true).block.Ok?
    ensures Admission(c, Mine(c, s, job, nonce, true).block.value).None?
  {
    SealedCandidate(c, g, s, job, nonce);
    SealedTxsPass(c, s, job, nonce);
  }

  lemma SealedTxsPass(c: Config, s: Node, job: Job, nonce: u64)
    requires s.blocks != [] && Mine(c, s, job, nonce, true).block.Ok?
    ensures var b := Mine(c, s, job, nonce, true).block.value;
            CheckTxs(c, b.txs, 0, b.height).None?
  {
    var cand := Candidate(c, s, job);
    MinedTxsPass(c, s.state, cand.txs[0], job.transfers, cand.height);
  }

  lemma ClockAgrees(c: Config, path: seq<Block>, later: i64)
    requires RulesOf(c).replay(path).Ok? && DriftOk(c.params, path, later)
    ensures RulesOf(c).replayAt(path, later) == RulesOf(c).replay(path)
  {
    ClockOnlyRejects(c, path, later);
  }

  /** Receiving a block that validly extends the tip is appending it. */
  lemma ReceiveIsAppend(c: Config, g: Block, s: Node, b: Block, state: State, later: i64)
    requires Follows(RulesOf(c), g, s) && s.blocks != []
    requires RulesOf(c).admission(b).None? && Extends(s, b) && b.hash !in s.store && PowOk(c, b)
    requires RulesOf(c).replay(s.blocks + [b]) == Ok(View(state, s.work + WorkForBits(b.bits)))
    requires DriftOk(c.params, s.blocks + [b], later)
    ensures AddBlock(RulesOf(c), s, b, later, true, true) == AddOutcome(AppendBlock(c, s, b, state), false, None)
  {
    RulesLawful(c);
    WorkPositive(b.bits);
    ClockAgrees(c, s.blocks + [b], later);
    ReceiveExtension(RulesOf(c), g, s, b, View(state, s.work + WorkForBits(b.bits)), later);
    AppendIsAdopt(c, s, b, state);
  }

  lemma ReceiveIsCommit(c: Config, g: Block, s: Node, b: Block, later: i64)
    requires Follows(RulesOf(c), g, s) && s.blocks != []
    requires Admission(c, b).None? && Extends(s, b) && b.hash !in s.store && PowOk(c, b)
    requires HeaderCheck(c, s.blocks, b, Unbounded).None? && ApplyBlock(c, s.state, b).error.None?
    requires DriftOk(c.params, s.blocks + [b], later)
    ensures AddBlock(RulesOf(c), s, b, later, true, true) == AddOutcome(Commit(c, s, b, true).node, false, None)
  {
    var state := ApplyBlock(c, s.state, b).state;
    ChainOf(c, g, s);
    LongerView(c, s, b, state);
    ReceiveIsAppend(c, g, s, b, state, later);
  }

  /** A successful mining step commits the sealed candidate. */
  lemma MinedShape(c: Config, s: Node, job: Job, nonce: u64) returns (b: Block)
    requires s.blocks != [] && Mine(c, s, job, nonce, true).block.Ok?
    ensures HeaderOf(c, Candidate(c, s, job), nonce).Some?
    ensures b == Seal(c, Candidate(c, s, job), nonce)
    ensures Mine(c, s, job, nonce, true) == Commit(c, s, b, true)
    ensures ApplyBlock(c, s.state, b).error.None? && Commit(c, s, b, true).block == Ok(b)
            && Commit(c, s, b, true).node.blocks == s.blocks + [b]
  {
    b := Seal(c, Candidate(c, s, job), nonce);
  }

  /** What a mined block holds: a coinbase to its miner with the miner's text, then the transfers as they came, on top
      of the latest block. */
  lemma MinedContents(c: Config, s: Node, job: Job, nonce: u64)
    requires s.blocks != [] && Mine(c, s, job, nonce, true).block.Ok?
    ensures var b, latest := Mine(c, s, job, nonce, true).block.value, s.blocks[|s.blocks| - 1];
            && b.miner == job.miner && b.nonce == nonce && b.prevHash == latest.hash
            && b.height == (latest.height + 1) % TWO64 && b.timestamp == MiningTime(s, job.now)
            && b.bits == NextBits(c.params, s.blocks)
            && |b.txs| == 1 + |job.transfers| && b.txs[1..] == job.transfers
            && b.txs[0].kind.Coinbase? && b.txs[0].chainId == c.chainId && b.txs[0].toAddress == job.miner
            && b.txs[0].data == job.note
  {
    var b := MinedShape(c, s, job, nonce);
    assert b.txs[1..] == job.transfers;
  }

  /** Mining a block and receiving that same block from outside lead to the same node: the incremental
      update and the full re-validation agree. Only the receiver's wall clock can tell them apart. */
  lemma MineEqualsReceive(c: Config, g: Block, s: Node, job: Job, nonce: u64, later: i64)
    requires Follows(RulesOf(c), g, s) && s.blocks != [] && MiningOk(c, s, job, nonce)
    requires Mine(c, s, job, nonce, true).block.Ok?
    requires DriftOk(c.params, Mine(c, s, job, nonce, true).node.blocks, later)
    ensures var out := Mine(c, s, job, nonce, true);
            AddBlock(RulesOf(c), s, out.block.value, later, true, true) == AddOutcome(out.node, false, None)
  {
    var b := MinedShape(c, s, job, nonce);
    SealedCandidate(c, g, s, job, nonce);
    MinedIsAdmitted(c, g, s, job, nonce);
    ReceiveIsCommit(c, g, s, b, later);
  }
}
