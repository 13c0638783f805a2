/** A node whose accounts may have been left behind by a failed mining step: what still holds, and until when. */
module Soundness {
  import opened Words
  import opened Types
  import opened Ledger
  import opened TimeRules
  import opened PathRules
  import opened BlockTree
  import opened Indexes
  import opened ForkChoice
  import opened NodeRules
  import opened MiningTheorems
  import opened Audit

  /** The accounts that replaying the node's chain gives. */
  function Accounts(c: Config, s: Node): State { ApplyBlocks(c, s.blocks).state }

  function Repaired(c: Config, s: Node): Node { s.(state := Accounts(c, s)) }

  /** The node's accounts are the replay of its chain. */
  ghost predicate Clean(c: Config, s: Node) { s.state == Accounts(c, s) }

  /** The store is sound, the chain is the path to the tip, and everything but the accounts is a function of it. */
  ghost predicate Sound(c: Config, g: Block, s: Node) { Follows(RulesOf(c), g, Repaired(c, s)) }

  /** The tip is the best stored block. */
  ghost predicate Leads(c: Config, g: Block, s: Node)
    requires Sound(c, g, s)
  {
    IsBest(RulesOf(c), g, s.store, s.tip)
  }

  lemma FollowsIsClean(c: Config, g: Block, s: Node)
    requires Follows(RulesOf(c), g, s)
    ensures Clean(c, s) && Repaired(c, s) == s && Sound(c, g, s)
  {
    ChainOf(c, g, s);
    ReplayValue(c, s.blocks, Unbounded);
  }

  /** The invariant of fork choice in three parts. */
  lemma InvIsThreefold(c: Config, g: Block, s: Node)
    ensures Inv(RulesOf(c), g, s) <==> Sound(c, g, s) && Leads(c, g, s) && Clean(c, s)
  {
    if Follows(RulesOf(c), g, s) { FollowsIsClean(c, g, s); }
  }

  lemma SoundChain(c: Config, g: Block, s: Node)
    requires Sound(c, g, s)
    ensures s.blocks != [] && s.tip in s.store && s.blocks[|s.blocks| - 1].hash == s.tip && |s.tip| > 0
    ensures Accepted(c, s.blocks, Unbounded) && Replay(c, s.blocks, Unbounded) == Ok(View(Accounts(c, s), s.work))
  {
    ChainOf(c, g, Repaired(c, s));
    TipBlock(RulesOf(c), g, Repaired(c, s));
  }

  lemma ChainIsNumbered(c: Config, g: Block, s: Node, i: nat)
    requires Follows(RulesOf(c), g, s) && Accepted(c, s.blocks, Unbounded) && i < |s.blocks|
    ensures s.blocks[i].height == i
  {
    forall j | 0 < j < |s.blocks| ensures s.blocks[j].height != 0 { ChainIsSealed(c, g, s, j); }
    HeightIsIndex(c, s.blocks, i, Unbounded);
  }

  /** The chain of a node that follows the path to its tip, block by block. */
  lemma ChainFacts(c: Config, g: Block, s: Node)
    requires Follows(RulesOf(c), g, s)
    ensures s.blocks != [] && s.blocks[0] == g && AtHeights(s.blocks)
    ensures forall i :: 0 < i < |s.blocks| ==> s.blocks[i].prevHash == s.blocks[i - 1].hash
    ensures ApplyBlocks(c, s.blocks) == Applied(s.state, None)
  {
    ChainOf(c, g, s);
    TipBlock(RulesOf(c), g, s);
    ReplayValue(c, s.blocks, Unbounded);
    forall i | 0 <= i < |s.blocks| ensures s.blocks[i].height == i { ChainIsNumbered(c, g, s, i); }
    ChainIsLinked(c, s.blocks, Unbounded);
  }

  // ----- receiving -----

  /** The node as it would be on replayed accounts differs in nothing else. */
  lemma ReceiveOnRepaired(c: Config, g: Block, s: Node, b: Block, now: i64, putOk: bool, rewriteOk: bool)
    requires Sound(c, g, s) && s.blocks != []
    ensures SameButAccounts(s, AddBlock(RulesOf(c), s, b, now, putOk, rewriteOk).node,
                            AddBlock(RulesOf(c), Repaired(c, s), b, now, putOk, rewriteOk).node, Accounts(c, s))
  {
    SoundChain(c, g, s);
    AccountsIgnored(RulesOf(c), s, b, now, putOk, rewriteOk, Accounts(c, s));
  }

  lemma ReceiveKeepsSound(c: Config, g: Block, s: Node, b: Block, now: i64, putOk: bool, rewriteOk: bool)
    requires Sound(c, g, s) && s.blocks != []
    ensures var n := AddBlock(RulesOf(c), s, b, now, putOk, rewriteOk).node;
            Sound(c, g, n) && if n.tip == s.tip then n.state == s.state && n.blocks == s.blocks else Clean(c, n)
  {
    var r, t := RulesOf(c), Repaired(c, s);
    RulesLawful(c);
    AddBlockKeepsFollows(r, g, t, b, now, putOk, rewriteOk);
    FollowsIsClean(c, g, AddBlock(r, t, b, now, putOk, rewriteOk).node);
    ReceiveOnRepaired(c, g, s, b, now, putOk, rewriteOk);
  }

  lemma ReceiveKeepsTops(c: Config, g: Block, s: Node, b: Block, now: i64, putOk: bool, rewriteOk: bool,
                         others: set<Bytes>)
    requires Sound(c, g, s) && s.blocks != [] && Tops(RulesOf(c), g, s.store, s.tip, others)
    ensures var n := AddBlock(RulesOf(c), s, b, now, putOk, rewriteOk).node;
            StoreOk(RulesOf(c), g, n.store) && Tops(RulesOf(c), g, n.store, n.tip, others)
  {
    RulesLawful(c);
    AddBlockKeepsTops(RulesOf(c), g, Repaired(c, s), b, now, putOk, rewriteOk, others);
    ReceiveOnRepaired(c, g, s, b, now, putOk, rewriteOk);
  }

  // ----- mining -----

  /** There is room for the block, and it applies to the accounts of the chain, not just to the node's. */
  ghost predicate Fits(c: Config, s: Node, b: Block)
    requires s.blocks != []
  {
    Room(s) && ApplyBlock(c, Accounts(c, s), b).error.None?
  }

  lemma CandidateIgnoresAccounts(c: Config, s: Node, job: Job, nonce: u64, st: State)
    requires s.blocks != []
    ensures Candidate(c, s.(state := st), job) == Candidate(c, s, job)
    ensures Mineable(c, s.(state := st), job, nonce) <==> Mineable(c, s, job, nonce)
  {
  }

  /** Mined on other accounts the block applies to, the block is the same and so is the rest of the node. */
  lemma MineOnOtherAccounts(c: Config, s: Node, job: Job, nonce: u64, st: State)
    requires s.blocks != [] && Mine(c, s, job, nonce, true).block.Ok?
    requires ApplyBlock(c, st, Mine(c, s, job, nonce, true).block.value).error.None?
    ensures var b := Mine(c, s, job, nonce, true).block.value;
            Mine(c, s.(state := st), job, nonce, true)
            == MineOutcome(Mine(c, s, job, nonce, true).node.(state := ApplyBlock(c, st, b).state), Ok(b))
  {
    CandidateIgnoresAccounts(c, s, job, nonce, st);
  }

  lemma OneMoreApplied(c: Config, blocks: seq<Block>, b: Block)
    requires ApplyBlocks(c, blocks).error.None?
    ensures ApplyBlocks(c, blocks + [b]) == ApplyBlock(c, ApplyBlocks(c, blocks).state, b)
  {
    assert (blocks + [b])[..|blocks|] == blocks;
  }

  /** A mining step that may go wrong only over the block's fit. */
  ghost predicate Mined(c: Config, g: Block, s: Node, job: Job, nonce: u64) {
    Sound(c, g, s) && s.blocks != [] && Mineable(c, s, job, nonce) && Mine(c, s, job, nonce, true).block.Ok?
  }

  /** Where the block fits, mining is mining on the replayed accounts, up to the accounts themselves. */
  lemma FittingMine(c: Config, g: Block, s: Node, job: Job, nonce: u64)
    requires Mined(c, g, s, job, nonce) && Fits(c, s, Mine(c, s, job, nonce, true).block.value)
    ensures var n := Mine(c, s, job, nonce, true).node;
            && MiningOk(c, Repaired(c, s), job, nonce)
            && Mine(c, Repaired(c, s), job, nonce, true).block.Ok?
            && Mine(c, Repaired(c, s), job, nonce, true).node == Repaired(c, n)
            && (Clean(c, s) ==> Clean(c, n))
  {
    var b := MinedShape(c, s, job, nonce);
    CandidateIgnoresAccounts(c, s, job, nonce, Accounts(c, s));
    MineOnOtherAccounts(c, s, job, nonce, Accounts(c, s));
    SoundChain(c, g, s);
    ReplayValue(c, s.blocks, Unbounded);
    OneMoreApplied(c, s.blocks, b);
  }

  /** A mined block that fits keeps the node sound, and clean if it was. */
  lemma FittingMineKeepsSound(c: Config, g: Block, s: Node, job: Job, nonce: u64)
    requires Mined(c, g, s, job, nonce) && Fits(c, s, Mine(c, s, job, nonce, true).block.value)
    ensures Sound(c, g, Mine(c, s, job, nonce, true).node)
    ensures Clean(c, s) ==> Clean(c, Mine(c, s, job, nonce, true).node)
  {
    FittingMine(c, g, s, job, nonce);
    MineKeepsFollows(c, g, Repaired(c, s), job, nonce, true);
  }

  lemma FittingMineKeepsTops(c: Config, g: Block, s: Node, job: Job, nonce: u64, others: set<Bytes>)
    requires Mined(c, g, s, job, nonce) && Fits(c, s, Mine(c, s, job, nonce, true).block.value)
    requires Tops(RulesOf(c), g, s.store, s.tip, others)
    ensures var n := Mine(c, s, job, nonce, true).node;
            StoreOk(RulesOf(c), g, n.store) && Tops(RulesOf(c), g, n.store, n.tip, others)
  {
    FittingMine(c, g, s, job, nonce);
    var b, v := MineJoins(c, g, Repaired(c, s), job, nonce, true);
    JoinKeepsTops(RulesOf(c), g, Repaired(c, s), b, s.blocks + [b], v, others);
  }

  /** On clean accounts every mined block fits, where there is room. */
  lemma CleanMineFits(c: Config, s: Node, job: Job, nonce: u64)
    requires s.blocks != [] && Clean(c, s) && Room(s) && Mine(c, s, job, nonce, true).block.Ok?
    ensures Fits(c, s, Mine(c, s, job, nonce, true).block.value)
  {
    var b := MinedShape(c, s, job, nonce);
  }

  /** Some stored block has a path that the rules do not accept. */
  ghost predicate Tainted(c: Config, g: Block, store: Store) {
    exists h :: h in store && PathTo(store, h, {}).Ok? && !StoredOk(RulesOf(c), g, store, h)
  }

  /** A store that holds such a block holds it for good. */
  lemma TaintStays(c: Config, g: Block, store: Store, bigger: Store)
    requires Tainted(c, g, store) && forall h :: h in store ==> h in bigger && bigger[h] == store[h]
    ensures Tainted(c, g, bigger)
  {
    var h :| h in store && PathTo(store, h, {}).Ok? && !StoredOk(RulesOf(c), g, store, h);
    var none: set<Bytes> := {};
    assert none + none == none;
    PathSurvives(store, bigger, h, {}, {});
    assert !StoredOk(RulesOf(c), g, bigger, h);
  }

  lemma TaintedIsNotSound(c: Config, g: Block, s: Node)
    requires Tainted(c, g, s.store)
    ensures !Sound(c, g, s)
  {
  }

  /** A longer chain that replays says that its last block fitted, height aside. */
  lemma ReplayedFits(c: Config, g: Block, s: Node, job: Job, b: Block)
    requires Sound(c, g, s) && s.blocks != [] && ParamsOk(c.params)
    requires b.(hash := [], nonce := 0) == Candidate(c, s, job)
    requires Replay(c, s.blocks + [b], Unbounded).Ok?
    ensures s.blocks[|s.blocks| - 1].timestamp < MAX_I64 && ApplyBlock(c, Accounts(c, s), b).error.None?
  {
    SoundChain(c, g, s);
    assert (s.blocks + [b])[..|s.blocks|] == s.blocks;
    LastBlock(c, s.blocks + [b], Unbounded);
    CandidateHeader(c, s, job, b);
  }

  /** A mined block that does not fit is stored, on a path that the rules do not accept. */
  lemma UnfitTaints(c: Config, g: Block, s: Node, job: Job, nonce: u64)
    requires Mined(c, g, s, job, nonce) && !Fits(c, s, Mine(c, s, job, nonce, true).block.value)
    ensures Tainted(c, g, Mine(c, s, job, nonce, true).node.store)
  {
    var b := MinedShape(c, s, job, nonce);
    NextBitsUsable(c.params, s.blocks);
    SoundChain(c, g, s);
    UnfitPath(c, g, s, job, b);
  }

  lemma UnfitPath(c: Config, g: Block, s: Node, job: Job, b: Block)
    requires Sound(c, g, s) && s.blocks != [] && ParamsOk(c.params)
    requires b.(hash := [], nonce := 0) == Candidate(c, s, job)
    requires b.hash !in s.store && b.prevHash == s.tip && !Fits(c, s, b)
    ensures Tainted(c, g, s.store[b.hash := b])
  {
    var store := s.store[b.hash := b];
    SoundChain(c, g, s);
    if b.height == 0 {
      assert PathTo(store, b.hash, {}) == Ok([b]) && b != g;
    } else {
      PathOfChild(s.store, b);
      if Replay(c, s.blocks + [b], Unbounded).Ok? { ReplayedFits(c, g, s, job, b); }
    }
    assert !StoredOk(RulesOf(c), g, store, b.hash);
  }

  /** Mining keeps a node sound if and only if the block fits the accounts of the chain; on accounts that a failed
      step left behind it may not. */
  lemma MineKeepsSoundIff(c: Config, g: Block, s: Node, job: Job, nonce: u64)
    requires Sound(c, g, s) && s.blocks != [] && Mineable(c, s, job, nonce) && Mine(c, s, job, nonce, true).block.Ok?
    ensures var out := Mine(c, s, job, nonce, true);
            Sound(c, g, out.node) <==> Fits(c, s, out.block.value)
  {
    var out := Mine(c, s, job, nonce, true);
    if Fits(c, s, out.block.value) {
      FittingMineKeepsSound(c, g, s, job, nonce);
    } else {
      UnfitTaints(c, g, s, job, nonce);
      TaintedIsNotSound(c, g, out.node);
    }
  }

  lemma FailureKeepsRest(c: Config, s: Node, job: Job, nonce: u64, appendOk: bool)
    requires s.blocks != [] && Mine(c, s, job, nonce, appendOk).block.Err?
    ensures Mine(c, s, job, nonce, appendOk).node == s.(state := Mine(c, s, job, nonce, appendOk).node.state)
  {
  }

  /** A mining step that fails, at whatever point, changes at most the accounts: the node stays sound, and the replay
      that ends every audit repairs it. */
  lemma FailedMiningIsRepaired(c: Config, g: Block, s: Node, job: Job, nonce: u64, appendOk: bool)
    requires Sound(c, g, s) && s.blocks != [] && Mine(c, s, job, nonce, appendOk).block.Err?
    ensures var n := Mine(c, s, job, nonce, appendOk).node;
            && n == s.(state := n.state) && Sound(c, g, n) && Repaired(c, n) == Repaired(c, s)
            && (Clean(c, s) ==> Repaired(c, n) == s)
  {
    FailureKeepsRest(c, s, job, nonce, appendOk);
  }
}
