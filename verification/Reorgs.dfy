/** What the reorganisation flag of AddBlock means. */
module Reorgs {
  import opened Words
  import opened Types
  import opened TimeRules
  import opened PathRules
  import opened BlockTree
  import opened ForkChoice
  import opened NodeRules

  /** The last block of an accepted path is one above the block before it. */
  lemma NextHeightOnPath(c: Config, chain: seq<Block>, b: Block, clock: Clock)
    requires chain != [] && Replay(c, chain + [b], clock).Ok?
    ensures b.height == AddU64(chain[|chain| - 1].height, 1)
  {
    var path := chain + [b];
    assert path[..|path| - 1] == chain;
    LastBlock(c, path, clock);
  }

  /** A block that takes over the tip reports a reorganisation exactly when the old chain is not the new one without
      its last block. */
  lemma ReorgMeaning(c: Config, g: Block, s: Node, b: Block, now: i64, putOk: bool, rewriteOk: bool)
    requires Follows(RulesOf(c), g, s) && s.blocks != [] && b.hash !in s.store
    requires AddBlock(RulesOf(c), s, b, now, putOk, rewriteOk).node.tip == b.hash
    ensures var out := AddBlock(RulesOf(c), s, b, now, putOk, rewriteOk);
            !out.reorged <==> out.node.blocks == s.blocks + [b]
  {
    RulesLawful(c);
    AdoptedChain(RulesOf(c), g, s, b, now, putOk, rewriteOk);
    PathIsTips(RulesOf(c), g, s, b.prevHash);
    var parents := PathTo(s.store, b.prevHash, {}).value;
    assert (parents + [b])[..|parents|] == parents && (s.blocks + [b])[..|s.blocks|] == s.blocks;
    if b.prevHash == s.tip { NextHeightOnPath(c, s.blocks, b, At(now)); }
  }
}
