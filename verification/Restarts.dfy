/** What the store holds while a node runs, and the node that a restart gives. */
module Restarts {
  import opened Words
  import opened Types
  import opened TimeRules
  import opened PathRules
  import opened BlockTree
  import opened ForkChoice
  import opened NodeRules
  import opened MiningTheorems
  import opened Soundness
  import opened Audit
  import opened Disks
  import opened Worlds

  // ----- filed chains -----

  /** Every block of the chain is stored under its own hash. */
  ghost predicate Filed(store: Store, chain: seq<Block>) {
    forall i :: 0 <= i < |chain| ==> chain[i].hash in store && store[chain[i].hash] == chain[i]
  }

  lemma {:induction false} FilingStoredBlocks(store: Store, chain: seq<Block>)
    requires Filed(store, chain)
    ensures FileBlocks(store, chain) == store
  {
    if chain != [] {
      var n := |chain| - 1;
      assert chain[n].hash in store;
      FilingStoredBlocks(store, chain[..n]);
    }
  }

  /** Every block is stored under its own hash. */
  ghost predicate Keyed(store: Store) { forall h :: h in store ==> store[h].hash == h }

  lemma PathIsFiledIn(store: Store, h: Bytes)
    requires Keyed(store) && PathTo(store, h, {}).Ok?
    ensures Filed(store, PathTo(store, h, {}).value)
  {
    var path := PathTo(store, h, {}).value;
    forall i | 0 <= i < |path| ensures path[i].hash in store && store[path[i].hash] == path[i] {
      PathIsStored(store, h, {}, i);
    }
  }

  lemma SoundIsKeyed(c: Config, g: Block, s: Node)
    requires Sound(c, g, s)
    ensures Keyed(s.store) && |s.blocks| > 0 && Filed(s.store, s.blocks) && AllHashed(s.blocks)
  {
    forall h | h in s.store ensures s.store[h].hash == h && |h| > 0 { assert StoredOk(RulesOf(c), g, s.store, h); }
    SoundChain(c, g, s);
    PathIsFiledIn(s.store, s.tip);
  }

  /** A node reloaded from its own chain, among whatever else the store knows, is the same node with that store, its
      accounts replayed. */
  lemma ReloadRestores(c: Config, g: Block, s: Node, all: Store)
    requires Sound(c, g, s) && s.blocks != [] && Filed(all, s.blocks)
    ensures Loaded(c, s.blocks, all) == Ok(Repaired(c, s).(store := all))
  {
    ChainOf(c, g, Repaired(c, s));
    ReplayValue(c, s.blocks, Unbounded);
    FilingStoredBlocks(all, s.blocks);
  }

  // ----- the store of a sound node -----

  /** The last entry of the store's canonical chain. */
  ghost function DiskTip(w: World): Bytes
    requires w.disk.canonical != []
  {
    w.disk.canonical[|w.disk.canonical| - 1]
  }

  /** The store knows every block the node knows, and its canonical chain is the path to one of them: the node's tip, or
      one whose path does not hold the node's tip. */
  ghost predicate OnDisk(w: World) {
    && w.disk.canonical != [] && w.disk.all == w.node.store
    && PathTo(w.node.store, DiskTip(w), {}).Ok?
    && Hashes(PathTo(w.node.store, DiskTip(w), {}).value) == w.disk.canonical
    && (DiskTip(w) == w.node.tip || w.node.tip !in w.disk.canonical)
  }

  /** The store's canonical chain is the node's. */
  ghost predicate Synced(w: World) { w.disk.canonical != [] && DiskTip(w) == w.node.tip }

  ghost function DiskChain(w: World): seq<Block>
    requires OnDisk(w)
  {
    PathTo(w.node.store, DiskTip(w), {}).value
  }

  lemma DiskIgnoresAccounts(w: World, v: World)
    requires OnDisk(w) && v == World(w.node.(state := v.node.state), w.disk)
    ensures OnDisk(v)
  {
  }

  lemma SyncedChain(c: Config, g: Block, w: World)
    requires Sound(c, g, w.node) && OnDisk(w)
    ensures Synced(w) <==> DiskChain(w) == w.node.blocks
  {
    SoundChain(c, g, w.node);
    if DiskChain(w) == w.node.blocks {
      assert Hashes(w.node.blocks)[|w.node.blocks| - 1] == w.node.tip;
    }
  }

  /** The canonical chain as it was, in a store with one more block. */
  lemma GrownDisk(w: World, v: World, b: Block)
    requires Keyed(w.node.store) && OnDisk(w) && b.hash !in w.node.store
    requires v.node.store == w.node.store[b.hash := b] && v.disk == Disk(w.disk.canonical, v.node.store)
    requires v.node.tip == w.node.tip || v.node.tip == b.hash
    ensures OnDisk(v) && DiskChain(v) == DiskChain(w) && DiskTip(v) == DiskTip(w)
    ensures v.node.tip == b.hash ==> !Synced(v)
  {
    PathIsFiledIn(w.node.store, DiskTip(w));
    PathOfOthers(w.node.store, b, DiskTip(w));
    forall i | 0 <= i < |w.disk.canonical| ensures w.disk.canonical[i] in w.node.store {
      assert w.disk.canonical[i] == DiskChain(w)[i].hash;
    }
  }

  /** The node's own chain, written. */
  lemma WrittenDisk(c: Config, g: Block, v: World)
    requires Sound(c, g, v.node) && v.disk == Disk(Hashes(v.node.blocks), v.node.store)
    ensures OnDisk(v) && Synced(v)
  {
    SoundChain(c, g, v.node);
    assert Hashes(v.node.blocks)[|v.node.blocks| - 1] == v.node.tip;
  }

  /** A delivery leaves the canonical chain in sync after a rewrite that commits, out of sync after one that does not,
      and as it was when the tip stays. */
  lemma ReceiveKeepsDisk(c: Config, g: Block, w: World, b: Block, now: i64, putOk: bool, rewriteOk: bool)
    requires Sound(c, g, w.node) && w.node.blocks != [] && OnDisk(w)
    ensures var v := ReceiveStep(c, w, b, now, putOk, rewriteOk);
            && OnDisk(v)
            && if v.node.tip != w.node.tip && rewriteOk then Synced(v)
               else && DiskChain(v) == DiskChain(w) && DiskTip(v) == DiskTip(w)
                    && (v.node.tip != w.node.tip ==> !Synced(v))
  {
    var v := ReceiveStep(c, w, b, now, putOk, rewriteOk);
    AdmissionLaw(c, b);
    SoundChain(c, g, w.node);
    SoundIsKeyed(c, g, w.node);
    ReceiveCases(RulesOf(c), w.node, w.disk, b, now, putOk, rewriteOk);
    ReceiveKeepsSound(c, g, w.node, b, now, putOk, rewriteOk);
    SoundIsKeyed(c, g, v.node);
    PuttingStored(v.node.store, v.node.blocks);
    if v != w {
      if v.node.tip != w.node.tip && rewriteOk { WrittenDisk(c, g, v); } else { GrownDisk(w, v, b); }
    }
  }

  /** The mined block sits on the tip, one above the latest block. */
  lemma MinedPlace(c: Config, g: Block, s: Node, job: Job, nonce: u64)
    requires Mined(c, g, s, job, nonce) && Room(s)
    ensures var b := Mine(c, s, job, nonce, true).block.value;
            b.hash !in s.store && b.prevHash == s.tip && b.height == |s.blocks|
  {
    var b := MinedShape(c, s, job, nonce);
    NextBitsUsable(c.params, s.blocks);
    SoundChain(c, g, s);
    ChainFacts(c, g, Repaired(c, s));
  }

  /** A mined block is appended only over a canonical chain that is the node's own. */
  lemma MineKeepsDisk(c: Config, g: Block, w: World, job: Job, nonce: u64, appendOk: bool)
    requires Mined(c, g, w.node, job, nonce) && OnDisk(w) && MineAt(c, w, job, nonce, appendOk).block.Ok?
    requires Fits(c, w.node, MineAt(c, w, job, nonce, appendOk).block.value)
    ensures var v := MineStep(c, w, job, nonce, appendOk);
            Synced(w) && OnDisk(v) && Synced(v) && v.node.tip != w.node.tip
  {
    var v := MineStep(c, w, job, nonce, appendOk);
    MinedWithStore(c, w, job, nonce, appendOk);
    var b := MinedShape(c, w.node, job, nonce);
    MinedPlace(c, g, w.node, job, nonce);
    SoundChain(c, g, w.node);
    FittingMineKeepsSound(c, g, w.node, job, nonce);
    AppendedDisk(c, g, w, b);
    WrittenDisk(c, g, v);
  }

  lemma AppendedDisk(c: Config, g: Block, w: World, b: Block)
    requires Sound(c, g, w.node) && w.node.blocks != [] && OnDisk(w)
    requires b.hash !in w.node.store && b.prevHash == w.node.tip && b.height == |w.node.blocks|
    requires w.disk.AppendCanonical(b).Some?
    ensures Synced(w)
    ensures w.disk.AppendCanonical(b) == Some(Disk(Hashes(w.node.blocks + [b]), w.node.store[b.hash := b]))
  {
    assert w.disk.canonical[b.height - 1] == w.node.tip;
    SyncedChain(c, g, w);
    OneMoreEntry(w.disk, w.node.blocks, b);
  }

  lemma OneMoreEntry(d: Disk, chain: seq<Block>, b: Block)
    requires d.canonical == Hashes(chain) && b.height == |chain| && b.hash !in d.all && d.AppendCanonical(b).Some?
    ensures d.AppendCanonical(b) == Some(Disk(Hashes(chain + [b]), d.all[b.hash := b]))
  {
    assert Hashes(chain + [b]) == Hashes(chain) + [b.hash];
  }

  /** A mining step that fails leaves the store, and everything it agrees with, alone. */
  lemma FailedKeepsDisk(c: Config, w: World, job: Job, nonce: u64, appendOk: bool)
    requires w.node.blocks != [] && MineAt(c, w, job, nonce, appendOk).block.Err?
    ensures var v := MineStep(c, w, job, nonce, appendOk);
            v == World(w.node.(state := v.node.state), w.disk)
  {
    FailedStep(c, w, job, nonce, appendOk);
    FailureKeepsRest(c, w.node, job, nonce, Mine(c, w.node, job, nonce, true).block.Err?);
  }

  // ----- starting again -----

  /** The node that follows a stored block. */
  ghost function NodeAt(c: Config, store: Store, h: Bytes): Node
    requires PathTo(store, h, {}).Ok? && Replay(c, PathTo(store, h, {}).value, Unbounded).Ok?
  {
    var path := PathTo(store, h, {}).value;
    Adopt(RulesOf(c), store, path, Replay(c, path, Unbounded).value, h)
  }

  lemma NodeAtFollows(c: Config, g: Block, s: Node, h: Bytes)
    requires Sound(c, g, s) && h in s.store
    ensures StoredOk(RulesOf(c), g, s.store, h) && Follows(RulesOf(c), g, NodeAt(c, s.store, h))
    ensures Sound(c, g, NodeAt(c, s.store, h)) && Clean(c, NodeAt(c, s.store, h))
  {
    assert StoredOk(RulesOf(c), g, s.store, h);
    FollowsIsClean(c, g, NodeAt(c, s.store, h));
  }

  /** A restart gives the node that follows the last entry of the store's canonical chain, with every block known. */
  lemma RestartGives(c: Config, g: Block, w: World)
    requires Sound(c, g, w.node) && OnDisk(w)
    ensures DiskTip(w) in w.node.store && StoredOk(RulesOf(c), g, w.node.store, DiskTip(w))
    ensures Started(c, g, w.disk, true) == (Ok(NodeAt(c, w.node.store, DiskTip(w))), w.disk)
  {
    var h := DiskTip(w);
    PathStructure(w.node.store, h);
    NodeAtFollows(c, g, w.node, h);
    var n := NodeAt(c, w.node.store, h);
    SoundIsKeyed(c, g, n);
    ReadsBack(w.disk, n.blocks);
    ReloadRestores(c, g, n, w.disk.all);
  }

  lemma RestartedDisk(w: World, n: Node)
    requires OnDisk(w) && n.store == w.node.store && n.tip == DiskTip(w)
    ensures OnDisk(World(n, w.disk)) && Synced(World(n, w.disk))
  {
  }

  /** It is sound, clean and in sync; in sync before, it is the same node with its accounts replayed. */
  lemma RestartKeeps(c: Config, g: Block, w: World)
    requires Sound(c, g, w.node) && OnDisk(w)
    ensures var v := RestartStep(c, g, w);
            && Sound(c, g, v.node) && Clean(c, v.node) && OnDisk(v) && Synced(v)
            && v.node.store == w.node.store && v.node.tip == DiskTip(w) && v.node.blocks == DiskChain(w)
            && (Synced(w) ==> v == World(Repaired(c, w.node), w.disk))
  {
    RestartGives(c, g, w);
    var n := NodeAt(c, w.node.store, DiskTip(w));
    assert RestartStep(c, g, w) == World(n, w.disk);
    NodeAtFollows(c, g, w.node, DiskTip(w));
    RestartedDisk(w, n);
    if Synced(w) { SameNode(c, g, w.node); }
  }

  lemma SameNode(c: Config, g: Block, s: Node)
    requires Sound(c, g, s) && PathTo(s.store, s.tip, {}).Ok?
    requires Replay(c, PathTo(s.store, s.tip, {}).value, Unbounded).Ok?
    ensures NodeAt(c, s.store, s.tip) == Repaired(c, s)
  {
    SoundChain(c, g, s);
  }

  /** Out of sync, a restart gives up the best tip. */
  lemma RestartForgets(c: Config, g: Block, w: World)
    requires Sound(c, g, w.node) && OnDisk(w) && Leads(c, g, w.node) && !Synced(w)
    ensures var v := RestartStep(c, g, w);
            Sound(c, g, v.node) && !Leads(c, g, v.node) && w.node.tip in v.node.store
  {
    RestartKeeps(c, g, w);
    SoundChain(c, g, w.node);
    PathStructure(w.node.store, DiskTip(w));
    BestIsOne(RulesOf(c), g, w.node.store, w.node.tip, DiskTip(w));
  }

  lemma BestIsOne(r: Rules, g: Block, store: Store, tip: Bytes, other: Bytes)
    requires StoreOk(r, g, store) && IsBest(r, g, store, tip) && other in store && other != tip
    ensures !IsBest(r, g, store, other)
  {
    BetterTotal(WorkOf(r, g, store, tip), tip, WorkOf(r, g, store, other), other);
  }

  /** An audit within the drift bound replays the accounts and changes nothing else. */
  lemma AuditRepairs(c: Config, g: Block, w: World, now: i64)
    requires Sound(c, g, w.node)
    ensures var v := AuditStep(c, w, now);
            && v == World(w.node.(state := v.node.state), w.disk) && Sound(c, g, v.node)
            && (v.node.state == w.node.state || Clean(c, v.node))
            && (DriftOk(c.params, w.node.blocks, now) ==> v.node == Repaired(c, w.node))
  {
    if DriftOk(c.params, w.node.blocks, now) { AuditPasses(c, g, Repaired(c, w.node), now); }
  }

  // ----- any world, sound or not -----

  /** The node and its store know the same blocks, each under its own hash. */
  ghost predicate Kept(w: World) {
    && w.disk.all == w.node.store && w.disk.canonical != [] && Keyed(w.node.store)
    && w.node.tip in w.node.store && w.node.blocks != []
  }

  /** What was known is known. */
  ghost predicate Remembers(v: World, w: World) {
    forall h :: h in w.node.store ==> h in v.node.store && v.node.store[h] == w.node.store[h]
  }

  lemma ReceiveRemembers(c: Config, w: World, b: Block, now: i64, putOk: bool, rewriteOk: bool)
    requires Kept(w)
    ensures Kept(ReceiveStep(c, w, b, now, putOk, rewriteOk))
    ensures Remembers(ReceiveStep(c, w, b, now, putOk, rewriteOk), w)
  {
    var v := ReceiveStep(c, w, b, now, putOk, rewriteOk);
    AdmissionLaw(c, b);
    ReceiveCases(RulesOf(c), w.node, w.disk, b, now, putOk, rewriteOk);
    if v.node.tip != w.node.tip {
      AdoptedPath(RulesOf(c), w.node, b, now, putOk, rewriteOk);
      PathIsFiledIn(v.node.store, v.node.tip);
      PathStructure(v.node.store, v.node.tip);
      PuttingStored(v.node.store, v.node.blocks);
    }
  }

  lemma AdoptedPath(r: Rules, s: Node, b: Block, now: i64, putOk: bool, rewriteOk: bool)
    requires s.blocks != [] && AddBlock(r, s, b, now, putOk, rewriteOk).node.tip != s.tip
    ensures var n := AddBlock(r, s, b, now, putOk, rewriteOk).node;
            PathTo(n.store, n.tip, {}) == Ok(n.blocks)
  {
  }

  lemma MineRemembers(c: Config, w: World, job: Job, nonce: u64, appendOk: bool)
    requires Kept(w) && (MineAt(c, w, job, nonce, appendOk).block.Ok? ==> Mineable(c, w.node, job, nonce))
    ensures Kept(MineStep(c, w, job, nonce, appendOk)) && Remembers(MineStep(c, w, job, nonce, appendOk), w)
  {
    if MineAt(c, w, job, nonce, appendOk).block.Ok? {
      MinedWithStore(c, w, job, nonce, appendOk);
      var b := MinedShape(c, w.node, job, nonce);
      NextBitsUsable(c.params, w.node.blocks);
    } else {
      FailedKeepsDisk(c, w, job, nonce, appendOk);
    }
  }

  lemma RestartRemembers(c: Config, g: Block, w: World)
    requires Kept(w)
    ensures Kept(RestartStep(c, g, w)) && Remembers(RestartStep(c, g, w), w)
  {
    if Started(c, g, w.disk, true).0.Ok? {
      var chain := w.disk.ReadCanonical().value;
      forall i | 0 <= i < |chain| ensures chain[i].hash in w.disk.all && w.disk.all[chain[i].hash] == chain[i] {
        assert w.disk.canonical[i] in w.disk.all;
      }
      FilingStoredBlocks(w.disk.all, chain);
    }
  }
}
