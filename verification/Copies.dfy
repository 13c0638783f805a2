/** Two blocks under one hash: the header does not hold address strings, so a copy of a block with an address spelled
    otherwise has its hash. Which of them a node has depends on which came first. */
module Copies {
  import opened Words
  import opened Types
  import opened TimeRules
  import opened PathRules
  import opened BlockTree
  import opened ForkChoice
  import opened NodeRules
  import opened Headers
  import opened Commitments
  import opened Deliveries

  /** The last transfer of the block can be paid to another string for the same address. */
  ghost predicate Respelled(c: Config, json: (Block, u64) -> Option<Bytes>, b: Block, other: string) {
    && |b.txs| > 1 && BinaryEncodingActive(c.params, b.height) && OwnHeaders(c, json) && c.env.validAddress(other)
    && SameHash(b.txs[|b.txs| - 1].toAddress, other) && other != b.txs[|b.txs| - 1].toAddress
    && (c.params.maxBlockSize > 0 ==> c.env.blockSize(Redirected(b, other)) <= c.params.maxBlockSize)
  }

  lemma CopyDiffers(b: Block, other: string)
    requires b.txs != [] && other != b.txs[|b.txs| - 1].toAddress
    ensures Redirected(b, other) != b && Redirected(b, other).hash == b.hash
  {
    assert Redirected(b, other).txs[|b.txs| - 1].toAddress == other;
  }

  lemma CopyReplays(c: Config, json: (Block, u64) -> Option<Bytes>, parents: seq<Block>, b: Block, other: string,
                    clock: Clock)
    requires Respelled(c, json, b, other) && Replay(c, parents + [b], clock).Ok?
    ensures Replay(c, parents + [Redirected(b, other)], clock).Ok?
  {
    var d := Redirected(b, other);
    ReplayAppend(c, parents, b, clock);
    ReplayAppend(c, parents, d, clock);
    RedirectedBlock(c, Replay(c, parents, clock).value.state, b, other);
    CopyHeader(c, parents, b, other, clock);
  }

  lemma CopyHeader(c: Config, parents: seq<Block>, b: Block, other: string, clock: Clock)
    requires b.txs != []
    ensures HeaderCheck(c, parents, Redirected(b, other), clock) == HeaderCheck(c, parents, b, clock)
  {
  }

  lemma CopyPasses(c: Config, json: (Block, u64) -> Option<Bytes>, parents: seq<Block>, b: Block, other: string)
    requires Respelled(c, json, b, other) && RulesOf(c).admission(b).None? && RulesOf(c).replay(parents + [b]).Ok?
    ensures var d := Redirected(b, other);
            && d != b && d.hash == b.hash && d.prevHash == b.prevHash
            && RulesOf(c).admission(d).None? && RulesOf(c).replay(parents + [d]).Ok?
  {
    RedirectedIsAdmitted(c, json, b, other);
    CopyReplays(c, json, parents, b, other, Unbounded);
    CopyDiffers(b, other);
  }

  lemma ParentsOf(r: Rules, g: Block, all: set<Block>, b: Block) returns (parents: seq<Block>)
    requires Good(r, g, all, b) && b != g
    ensures parents != [] && PathOf(r, g, all, parents + [b], b) && r.admission(b).None?
  {
    var path: seq<Block> :| PathOf(r, g, all, path, b);
    parents := path[..|path| - 1];
    assert path == parents + [b];
    assert r.admission(path[|path| - 1]).None?;
  }

  /** The copy of a good block is good: it is another block, with the same hash. */
  lemma CopyIsTwin(c: Config, json: (Block, u64) -> Option<Bytes>, g: Block, all: set<Block>, b: Block, other: string)
    requires Respelled(c, json, b, other) && b != g && Good(RulesOf(c), g, all, b) && Redirected(b, other) in all
    ensures var d := Redirected(b, other);
            d != b && d.hash == b.hash && Admission(c, d).None? && Good(RulesOf(c), g, all, d)
  {
    var parents := ParentsOf(RulesOf(c), g, all, b);
    CopyPasses(c, json, parents, b, other);
    RulesLawful(c);
    GoodSibling(RulesOf(c), g, all, parents, b, Redirected(b, other));
  }

  /** So blocks that hold both a good block and its copy do not converge. */
  lemma CopiesDiverge(c: Config, json: (Block, u64) -> Option<Bytes>, g: Block, all: set<Block>, b: Block,
                      other: string, ds: seq<Delivery>)
    returns (es: seq<Delivery>)
    requires GenesisOk(RulesOf(c), g) && g in all && b in all && b != g && Good(RulesOf(c), g, all, b)
    requires Respelled(c, json, b, other) && Redirected(b, other) in all && Complete(RulesOf(c), g, all, ds)
    ensures Complete(RulesOf(c), g, all, es)
    ensures var s := Genesis(RulesOf(c), g);
            Deliver(RulesOf(c), s, ds).store != Deliver(RulesOf(c), s, es).store
  {
    RulesLawful(c);
    CopyIsTwin(c, json, g, all, b, other);
    es := OrdersDiverge(RulesOf(c), g, all, ds);
  }

  ghost predicate Storable(c: Config, s: Node, b: Block, now: i64) {
    && Admission(c, b).None? && b.prevHash in s.store && PathTo(s.store, b.prevHash, {}).Ok?
    && Replay(c, PathTo(s.store, b.prevHash, {}).value + [b], At(now)).Ok?
  }

  lemma CopyIsStorable(c: Config, json: (Block, u64) -> Option<Bytes>, s: Node, b: Block, other: string, now: i64)
    requires Respelled(c, json, b, other) && Storable(c, s, b, now)
    ensures Storable(c, s, Redirected(b, other), now)
  {
    RedirectedIsAdmitted(c, json, b, other);
    CopyReplays(c, json, PathTo(s.store, b.prevHash, {}).value, b, other, At(now));
  }

  lemma IsStored(c: Config, g: Block, s: Node, b: Block, now: i64, rewriteOk: bool)
    requires Inv(RulesOf(c), g, s) && s.blocks != [] && b.hash !in s.store
    ensures AddBlock(RulesOf(c), s, b, now, true, rewriteOk).node.store == s.store[b.hash := b]
            <==> Storable(c, s, b, now)
  {
    AddedStore(RulesOf(c), s, b, now, rewriteOk);
    assert b.hash in s.store[b.hash := b];
    if Admission(c, b).None? && b.prevHash in s.store {
      AdmissionLaw(c, b);
      WalkSucceeds(RulesOf(c), g, s.store, b);
    }
  }

  lemma CopyIsStored(c: Config, json: (Block, u64) -> Option<Bytes>, g: Block, s: Node, b: Block, other: string,
                     now: i64, rewriteOk: bool)
    requires Inv(RulesOf(c), g, s) && s.blocks != [] && Respelled(c, json, b, other) && b.hash !in s.store
    requires AddBlock(RulesOf(c), s, b, now, true, rewriteOk).node.store == s.store[b.hash := b]
    ensures var d := Redirected(b, other);
            && d != b && d.hash == b.hash
            && AddBlock(RulesOf(c), s, d, now, true, rewriteOk).node.store == s.store[d.hash := d]
  {
    var d := Redirected(b, other);
    IsStored(c, g, s, b, now, rewriteOk);
    CopyIsStorable(c, json, s, b, other, now);
    IsStored(c, g, s, d, now, rewriteOk);
    CopyDiffers(b, other);
  }

  lemma KnownHash(r: Rules, g: Block, s: Node, b: Block, d: Block, now: i64, later: i64, rewriteOk: bool)
    requires Lawful(r) && Inv(r, g, s) && s.blocks != [] && b.hash == d.hash
    requires AddBlock(r, s, b, now, true, rewriteOk).node.store == s.store[b.hash := b]
    ensures var n := AddBlock(r, s, b, now, true, rewriteOk).node;
            n.blocks != [] && AddBlock(r, n, d, later, true, rewriteOk).node == n
  {
    AddBlockKeepsInv(r, g, s, b, now, true, rewriteOk);
    TipBlock(r, g, AddBlock(r, s, b, now, true, rewriteOk).node);
  }

  /** A node that would store a block would store its copy instead. Whichever comes first stays, and the other is turned
      away, whenever it comes. */
  lemma FirstCopyStays(c: Config, json: (Block, u64) -> Option<Bytes>, g: Block, s: Node, b: Block, other: string,
                       now: i64, later: i64, rewriteOk: bool)
    requires Inv(RulesOf(c), g, s) && s.blocks != [] && Respelled(c, json, b, other) && b.hash !in s.store
    requires AddBlock(RulesOf(c), s, b, now, true, rewriteOk).node.store == s.store[b.hash := b]
    ensures var r, d := RulesOf(c), Redirected(b, other);
            var n, m := AddBlock(r, s, b, now, true, rewriteOk).node, AddBlock(r, s, d, now, true, rewriteOk).node;
            && n.blocks != [] && m.blocks != []
            && n.store == s.store[b.hash := b] && m.store == s.store[b.hash := d] && d != b
            && AddBlock(r, n, d, later, true, rewriteOk).node == n
            && AddBlock(r, m, b, later, true, rewriteOk).node == m
  {
    CopyIsStored(c, json, g, s, b, other, now, rewriteOk);
    RulesLawful(c);
    KnownHash(RulesOf(c), g, s, b, Redirected(b, other), now, later, rewriteOk);
    KnownHash(RulesOf(c), g, s, Redirected(b, other), b, now, later, rewriteOk);
  }
}
