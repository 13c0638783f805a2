/** A node together with what its store holds, and the steps of both. */
module Worlds {
  import opened Words
  import opened Types
  import opened Ledger
  import opened TimeRules
  import opened Pow
  import opened PathRules
  import opened BlockTree
  import opened Indexes
  import opened ForkChoice
  import opened NodeRules
  import opened Audit
  import opened Disks

  datatype World = World(node: Node, disk: Disk)

  /** The store writes of the second half of AddBlock: the block once its path is judged, then the new chain when
      the node follows it. */
  function SettleDisk(s: Node, d: Disk, b: Block, judged: Result<(seq<Block>, View), Error>, putOk: bool,
                      rewriteOk: bool): Disk
  {
    match judged
    case Err(_) => d
    case Ok((path, v)) =>
      if !putOk || d.PutBlock(b).None? then d
      else
        var put := d.PutBlock(b).value;
        if Better(v.work, b.hash, s.work, s.tip) && rewriteOk && put.RewriteCanonical(path).Some?
        then put.RewriteCanonical(path).value
        else put
  }

  function ReceiveDisk(r: Rules, s: Node, d: Disk, b: Block, now: i64, putOk: bool, rewriteOk: bool): Disk {
    if r.admission(b).Some? || b.prevHash !in s.store || b.hash in s.store then d
    else SettleDisk(s, d, b, Canonical(r, s.store[b.hash := b], b.hash, now), putOk, rewriteOk)
  }

  /** AddBlock on node and store. */
  function ReceiveStep(c: Config, w: World, b: Block, now: i64, putOk: bool, rewriteOk: bool): World
    requires w.node.blocks != []
  {
    World(AddBlock(RulesOf(c), w.node, b, now, putOk, rewriteOk).node,
          ReceiveDisk(RulesOf(c), w.node, w.disk, b, now, putOk, rewriteOk))
  }

  /** MineTransfers with the store deciding whether the block is appended. */
  function MineAt(c: Config, w: World, job: Job, nonce: u64, appendOk: bool): MineOutcome
    requires w.node.blocks != []
  {
    var mined := Mine(c, w.node, job, nonce, true);
    if mined.block.Ok? && !(appendOk && w.disk.AppendCanonical(mined.block.value).Some?)
    then Mine(c, w.node, job, nonce, false)
    else mined
  }

  function MineStep(c: Config, w: World, job: Job, nonce: u64, appendOk: bool): World
    requires w.node.blocks != []
  {
    var out := MineAt(c, w, job, nonce, appendOk);
    World(out.node, if out.block.Ok? && w.disk.AppendCanonical(out.block.value).Some?
                    then w.disk.AppendCanonical(out.block.value).value else w.disk)
  }

  /** AuditChain: a chain whose headers pass is replayed into the accounts. */
  function AuditStep(c: Config, w: World, now: i64): World {
    if AuditHeaders(c, w.node.blocks, At(now)).Some? then w
    else w.(node := w.node.(state := ApplyBlocks(c, w.node.blocks).state))
  }

  /** The blocks of a chain filed under their hashes; a block without a hash is skipped. */
  function FileBlocks(store: Store, chain: seq<Block>): Store {
    if chain == [] then store
    else
      var b := chain[|chain| - 1];
      var rest := FileBlocks(store, chain[..|chain| - 1]);
      if |b.hash| == 0 then rest else rest[b.hash := b]
  }

  /** The node rebuilt around a chain and the blocks the store knows. */
  function Loaded(c: Config, chain: seq<Block>, all: Store): Result<Node, Error>
    requires chain != []
  {
    var a := ApplyBlocks(c, chain);
    if a.error.Some? then Err(a.error.value)
    else Ok(Node(FileBlocks(all, chain), chain, a.state, chain[|chain| - 1].hash, PathWork(chain),
                 TxIndexOf(c, chain), AddressIndexOf(c, chain)))
  }

  /** What starting over the store `d` yields: `g` is the genesis block to begin with when nothing is stored, and
      `appendOk` whether that write commits. */
  function Started(c: Config, g: Block, d: Disk, appendOk: bool): (Result<Node, Error>, Disk) {
    match d.ReadCanonical()
    case None => (Err(CanonicalMissing), d)
    case Some(chain) =>
      if chain != [] then (Loaded(c, chain, d.all), d)
      else if !appendOk || d.AppendCanonical(g).None? then (Err(StoreFailed), d)
      else (Loaded(c, [g], d.all), d.AppendCanonical(g).value)
  }

  /** The node is stopped and loaded again from its store; one that does not load leaves everything as it was. */
  function RestartStep(c: Config, g: Block, w: World): World {
    match Started(c, g, w.disk, true)
    case (Ok(n), d) => World(n, d)
    case (Err(_), _) => w
  }

  /** Past the early checks a mining step is the commit of the sealed candidate, with the store's say. */
  lemma MiningCommits(c: Config, w: World, job: Job, nonce: u64, appendOk: bool)
    requires w.node.blocks != [] && CheckTransfers(c, job.transfers, 0, NextHeight(w.node)).None?
    requires HeaderOf(c, Candidate(c, w.node, job), nonce).Some?
    ensures var b := Seal(c, Candidate(c, w.node, job), nonce);
            MineAt(c, w, job, nonce, appendOk) == Commit(c, w.node, b, appendOk && w.disk.AppendCanonical(b).Some?)
  {
  }

  /** A mining step that succeeds is the mining function with a store that took the block. */
  lemma MinedWithStore(c: Config, w: World, job: Job, nonce: u64, appendOk: bool)
    requires w.node.blocks != [] && MineAt(c, w, job, nonce, appendOk).block.Ok?
    ensures MineAt(c, w, job, nonce, appendOk) == Mine(c, w.node, job, nonce, true)
    ensures w.disk.AppendCanonical(Mine(c, w.node, job, nonce, true).block.value).Some?
  {
  }

  /** A mining step that fails writes nothing, and is the mining function with or without the store. */
  lemma FailedStep(c: Config, w: World, job: Job, nonce: u64, appendOk: bool)
    requires w.node.blocks != [] && MineAt(c, w, job, nonce, appendOk).block.Err?
    ensures var stored := Mine(c, w.node, job, nonce, true).block.Err?;
            && Mine(c, w.node, job, nonce, stored).block.Err?
            && MineStep(c, w, job, nonce, appendOk) == World(Mine(c, w.node, job, nonce, stored).node, w.disk)
  {
  }

  /** What a delivery does: nothing, one more block aside, or a new chain. */
  lemma ReceiveCases(r: Rules, s: Node, d: Disk, b: Block, now: i64, putOk: bool, rewriteOk: bool)
    requires s.blocks != [] && s.tip in s.store && d.all == s.store && (r.admission(b).None? ==> |b.hash| > 0)
    ensures var n, e := AddBlock(r, s, b, now, putOk, rewriteOk).node, ReceiveDisk(r, s, d, b, now, putOk, rewriteOk);
            || (n == s && e == d)
            || (b.hash !in s.store && Received(s, d, b, rewriteOk, n, e))
  {
    if r.admission(b).None? && b.prevHash in s.store && b.hash !in s.store {
      SettleCases(r, s, d, b, Canonical(r, s.store[b.hash := b], b.hash, now), putOk, rewriteOk);
    }
  }

  /** The block is stored, aside or as the new tip; a new chain is on disk when the rewrite commits. */
  ghost predicate Received(s: Node, d: Disk, b: Block, rewriteOk: bool, n: Node, e: Disk) {
    && n.store == s.store[b.hash := b]
    && if n.tip == s.tip then n.blocks == s.blocks && e == Disk(d.canonical, n.store)
       else n.tip == b.hash
            && e == if rewriteOk && AllHashed(n.blocks) then Disk(Hashes(n.blocks), PutAll(n.store, n.blocks))
                                    else Disk(d.canonical, n.store)
  }

  lemma SettleCases(r: Rules, s: Node, d: Disk, b: Block, judged: Result<(seq<Block>, View), Error>, putOk: bool,
                    rewriteOk: bool)
    requires s.blocks != [] && s.tip in s.store && d.all == s.store && |b.hash| > 0 && b.hash !in s.store
    ensures var n, e := Settle(r, s, b, judged, putOk, rewriteOk).node, SettleDisk(s, d, b, judged, putOk, rewriteOk);
            (n == s && e == d) || Received(s, d, b, rewriteOk, n, e)
  {
  }
}
