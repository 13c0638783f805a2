/** AuditChain: an independent pass over the canonical chain, and why it finds nothing. */
module Audit {
  import opened Words
  import opened Types
  import opened Ledger
  import opened TxRules
  import opened Difficulty
  import opened TimeRules
  import opened Pow
  import opened PathRules
  import opened BlockTree
  import opened ForkChoice
  import opened NodeRules
  import opened MiningTheorems

  /** Header linkage as the audit words it. */
  function AuditLink(c: Config, parents: seq<Block>, b: Block, clock: Clock): Option<Error> {
    if parents == [] then
      if b.height != 0 || |b.prevHash| != 0 then Some(BadGenesisHeader)
      else if b.version != BlockVersionForHeight(c.params, 0) then Some(BadVersion)
      else None
    else if b.height != AddU64(parents[|parents| - 1].height, 1) then Some(BadHeightLinkage)
    else if b.prevHash != parents[|parents| - 1].hash then Some(BadPrevHashLinkage)
    else
      var t := TimeCheck(c.params, parents, b, clock);
      if t.Some? then t
      else if c.params.difficultyEnable && b.bits != NextBits(c.params, parents) then Some(BadDifficulty)
      else if b.version != BlockVersionForHeight(c.params, b.height) then Some(BadVersion)
      else None
  }

  function AuditTxs(c: Config, txs: seq<Transaction>, i: nat, h: u64): Option<Error>
    decreases |txs| - i
  {
    if i >= |txs| then None
    else if txs[i].chainId == 0 then Some(MissingChainId)
    else
      var e := VerifyTx(c, txs[i], h);
      if e.Some? then e else AuditTxs(c, txs, i + 1, h)
  }

  function AuditBlock(c: Config, parents: seq<Block>, b: Block, clock: Clock): Option<Error> {
    var e := AuditLink(c, parents, b, clock);
    if e.Some? then e
    else if b.bits == 0 || b.bits > MAX_DIFFICULTY_BITS then Some(DifficultyOutOfRange)
    else
      match ValidatePow(c, b)
      case Err(x) => Some(x)
      case Ok(ok) => if !ok then Some(InvalidProofOfWork) else AuditTxs(c, b.txs, 0, b.height)
  }

  /** The first finding in a chain, headers before the ledger replay. */
  function AuditHeaders(c: Config, blocks: seq<Block>, clock: Clock): Option<Error> {
    if blocks == [] then None
    else
      var n := |blocks| - 1;
      var e := AuditHeaders(c, blocks[..n], clock);
      if e.Some? then e else AuditBlock(c, blocks[..n], blocks[n], clock)
  }

  function AuditResult(c: Config, blocks: seq<Block>, clock: Clock): Option<Error> {
    if blocks == [] then Some(EmptyChain)
    else
      var e := AuditHeaders(c, blocks, clock);
      if e.Some? then e else ApplyBlocks(c, blocks).error
  }

  method CheckAuditTxs(c: Config, b: Block) returns (error: Option<Error>)
    ensures error == AuditTxs(c, b.txs, 0, b.height)
  {
    for i := 0 to |b.txs|
      invariant AuditTxs(c, b.txs, i, b.height) == AuditTxs(c, b.txs, 0, b.height)
    {
      if b.txs[i].chainId == 0 { return Some(MissingChainId); }
      var e := VerifyTx(c, b.txs[i], b.height);
      if e.Some? { return e; }
    }
    return None;
  }

  method CheckAuditLink(c: Config, blocks: seq<Block>, i: nat, now: i64) returns (error: Option<Error>)
    requires i < |blocks|
    ensures error == AuditLink(c, blocks[..i], blocks[i], At(now))
  {
    var b := blocks[i];
    if i == 0 {
      if b.height != 0 || |b.prevHash| != 0 { return Some(BadGenesisHeader); }
      if b.version != BlockVersionForHeight(c.params, 0) { return Some(BadVersion); }
      return None;
    }
    var prev := blocks[i - 1];
    if b.height != AddU64(prev.height, 1) { return Some(BadHeightLinkage); }
    if b.prevHash != prev.hash { return Some(BadPrevHashLinkage); }
    error := ValidateBlockTime(c.params, blocks, i, now);
    if error.Some? { return error; }
    if c.params.difficultyEnable {
      var expected := NextBits(c.params, blocks[..i]);
      if b.bits != expected { return Some(BadDifficulty); }
    }
    if b.version != BlockVersionForHeight(c.params, b.height) { return Some(BadVersion); }
    return None;
  }

  method CheckAuditBlock(c: Config, blocks: seq<Block>, i: nat, now: i64) returns (error: Option<Error>)
    requires i < |blocks|
    ensures error == AuditBlock(c, blocks[..i], blocks[i], At(now))
  {
    error := CheckAuditLink(c, blocks, i, now);
    if error.Some? { return error; }
    var b := blocks[i];
    if b.bits == 0 || b.bits > MAX_DIFFICULTY_BITS { return Some(DifficultyOutOfRange); }
    var pow := ValidatePow(c, b);
    if pow.Err? { return Some(pow.error); }
    if !pow.value { return Some(InvalidProofOfWork); }
    error := CheckAuditTxs(c, b);
  }

  method CheckAuditHeaders(c: Config, blocks: seq<Block>, now: i64) returns (error: Option<Error>)
    ensures error == AuditHeaders(c, blocks, At(now))
  {
    for i := 0 to |blocks|
      invariant AuditHeaders(c, blocks[..i], At(now)).None?
    {
      error := CheckAuditBlock(c, blocks, i, now);
      var upTo := blocks[..i + 1];
      assert upTo[..|upTo| - 1] == blocks[..i] && upTo[|upTo| - 1] == blocks[i];
      if error.Some? {
        AuditStops(c, blocks, i + 1, At(now));
        return error;
      }
    }
    assert blocks[..|blocks|] == blocks;
    return None;
  }

  lemma {:induction false} AuditStops(c: Config, blocks: seq<Block>, k: nat, clock: Clock)
    requires k <= |blocks| && AuditHeaders(c, blocks[..k], clock).Some?
    ensures AuditHeaders(c, blocks, clock) == AuditHeaders(c, blocks[..k], clock)
    decreases |blocks|
  {
    if k == |blocks| {
      assert blocks[..k] == blocks;
    } else {
      var init := blocks[..|blocks| - 1];
      assert init[..k] == blocks[..k];
      AuditStops(c, init, k, clock);
    }
  }

  // ----- the audit of an accepted chain -----

  lemma {:induction false} VerifiedPassAudit(c: Config, txs: seq<Transaction>, i: nat, h: u64)
    requires forall j :: i <= j < |txs| ==> VerifyTx(c, txs[j], h).None?
    ensures AuditTxs(c, txs, i, h).None?
    decreases |txs| - i
  {
    if i < |txs| {
      assert VerifyTx(c, txs[i], h).None?;
      VerifiedPassAudit(c, txs, i + 1, h);
    }
  }

  lemma AppliedPassAudit(c: Config, st: State, b: Block)
    requires ApplyBlock(c, st, b).error.None?
    ensures AuditTxs(c, b.txs, 0, b.height).None?
  {
    forall j | 0 <= j < |b.txs| ensures VerifyTx(c, b.txs[j], b.height).None? {
      AppliedAreVerified(c, st, b.txs, 0, b.height, j);
    }
    VerifiedPassAudit(c, b.txs, 0, b.height);
  }

  lemma LinkPasses(c: Config, parents: seq<Block>, b: Block, clock: Clock)
    requires HeaderCheck(c, parents, b, clock).None?
    ensures AuditLink(c, parents, b, clock).None?
  {
  }

  lemma BlockPasses(c: Config, st: State, parents: seq<Block>, b: Block, clock: Clock)
    requires HeaderCheck(c, parents, b, clock).None? && ApplyBlock(c, st, b).error.None? && PowOk(c, b)
    ensures AuditBlock(c, parents, b, clock).None?
  {
    LinkPasses(c, parents, b, clock);
    AppliedPassAudit(c, st, b);
  }

  /** Every block sealed and the whole path accepted: nothing to find. */
  lemma {:induction false} AcceptedPassesAudit(c: Config, path: seq<Block>, clock: Clock)
    requires Replay(c, path, clock).Ok?
    requires forall i :: 0 <= i < |path| ==> PowOk(c, path[i])
    ensures AuditHeaders(c, path, clock).None?
    decreases |path|
  {
    if path != [] {
      var n := |path| - 1;
      LastBlock(c, path, clock);
      AcceptedPassesAudit(c, path[..n], clock);
      assert PowOk(c, path[n]);
      BlockPasses(c, Replay(c, path[..n], clock).value.state, path[..n], path[n], clock);
    }
  }

  lemma AuditedBlock(c: Config, parents: seq<Block>, b: Block, clock: Clock)
    requires ParamsOk(c.params) && AuditBlock(c, parents, b, clock).None?
    ensures HeaderCheck(c, parents, b, clock).None? && PowOk(c, b)
  {
    NextBitsUsable(c.params, parents);
  }

  lemma {:induction false} AuditedIsSealed(c: Config, path: seq<Block>, clock: Clock, i: nat)
    requires ParamsOk(c.params) && AuditHeaders(c, path, clock).None? && i < |path|
    ensures PowOk(c, path[i])
    decreases |path|
  {
    var n := |path| - 1;
    if i == n {
      AuditedBlock(c, path[..n], path[n], clock);
    } else {
      AuditedIsSealed(c, path[..n], clock, i);
    }
  }

  lemma InitLast(path: seq<Block>)
    requires path != []
    ensures path == path[..|path| - 1] + [path[|path| - 1]]
  {
  }

  lemma {:induction false} AuditedIsAccepted(c: Config, path: seq<Block>, clock: Clock)
    requires ParamsOk(c.params) && AuditHeaders(c, path, clock).None? && ApplyBlocks(c, path).error.None?
    ensures Replay(c, path, clock).Ok? && Replay(c, path, clock).value.state == ApplyBlocks(c, path).state
    decreases |path|
  {
    if path != [] {
      var n := |path| - 1;
      InitLast(path);
      LastApplied(c, path);
      AuditedIsAccepted(c, path[..n], clock);
      AuditedBlock(c, path[..n], path[n], clock);
      var v := Replay(c, path[..n], clock).value;
      ReplayLast(c, path, path[..n], path[n], clock, v.state, v.work, ApplyBlocks(c, path).state);
    }
  }

  /** The audit and the validator of received blocks agree: a chain passes the audit if and only if it is accepted as
      a path and every block carries its proof of work. */
  lemma AuditAgrees(c: Config, path: seq<Block>, clock: Clock)
    requires ParamsOk(c.params)
    ensures AuditResult(c, path, clock).None?
            <==> Accepted(c, path, clock) && forall i :: 0 <= i < |path| ==> PowOk(c, path[i])
  {
    if AuditResult(c, path, clock).None? {
      AuditedIsAccepted(c, path, clock);
      forall i | 0 <= i < |path| ensures PowOk(c, path[i]) { AuditedIsSealed(c, path, clock, i); }
    }
    if Accepted(c, path, clock) && forall i :: 0 <= i < |path| ==> PowOk(c, path[i]) {
      AcceptedPassesAudit(c, path, clock);
      ReplayValue(c, path, clock);
    }
  }

  lemma ChainIsSealed(c: Config, g: Block, s: Node, i: nat)
    requires Follows(RulesOf(c), g, s) && i < |s.blocks|
    ensures PowOk(c, s.blocks[i]) && (i > 0 ==> s.blocks[i].height != 0)
  {
    PathIsStored(s.store, s.tip, {}, i);
    var k :| k in s.store && s.store[k] == s.blocks[i];
    assert StoredOk(RulesOf(c), g, s.store, k);
    assert RulesOf(c).sealed(s.store[k]);
  }

  /** In every state that satisfies the invariant the audit passes, but for the wall clock. */
  lemma AuditPasses(c: Config, g: Block, s: Node, now: i64)
    requires Follows(RulesOf(c), g, s)
    ensures AuditResult(c, s.blocks, Unbounded).None?
    ensures DriftOk(c.params, s.blocks, now) ==> AuditResult(c, s.blocks, At(now)).None?
    ensures ApplyBlocks(c, s.blocks).state == s.state
  {
    ChainOf(c, g, s);
    forall i | 0 <= i < |s.blocks| ensures PowOk(c, s.blocks[i]) { ChainIsSealed(c, g, s, i); }
    AcceptedPassesAudit(c, s.blocks, Unbounded);
    ReplayValue(c, s.blocks, Unbounded);
    ClockOnlyRejects(c, s.blocks, now);
    if DriftOk(c.params, s.blocks, now) {
      AcceptedPassesAudit(c, s.blocks, At(now));
    }
  }
}
