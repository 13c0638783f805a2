/** Starting a node from what its store holds, and exactly when a restart gives the same node back. */
module Loading {
  import opened Words
  import opened Types
  import opened Ledger
  import opened TimeRules
  import opened Pow
  import opened PathRules
  import opened BlockTree
  import opened Indexes
  import opened ForkChoice
  import opened NodeRules
  import opened MiningFailures
  import opened Soundness
  import opened Disks
  import opened Worlds
  import opened Restarts
  import opened Traces
  import opened Runs
  import opened Chain

  method InitIndex(all: Store, chain: seq<Block>) returns (store: Store, work: nat)
    ensures store == FileBlocks(all, chain) && work == PathWork(chain)
  {
    store, work := all, 0;
    for i := 0 to |chain|
      invariant store == FileBlocks(all, chain[..i]) && work == PathWork(chain[..i])
    {
      var upTo := chain[..i + 1];
      assert upTo[..|upTo| - 1] == chain[..i] && upTo[|upTo| - 1] == chain[i];
      if |chain[i].hash| > 0 { store := store[chain[i].hash := chain[i]]; }
      work := work + WorkForBits(chain[i].bits);
    }
    assert chain[..|chain|] == chain;
  }

  /** recomputeStateLocked and initCanonicalIndexesLocked on a new object. */
  method Rebuild(c: Config, miner: string, store: BoltStore, chain: seq<Block>, all: Store)
    returns (r: Result<Blockchain, Error>)
    requires chain != []
    ensures r.Err? ==> Loaded(c, chain, all) == Err(r.error)
    ensures r.Ok? ==> fresh(r.value) && r.value.cfg == c && r.value.minerAddress == miner && r.value.store == store
    ensures r.Ok? ==> Loaded(c, chain, all) == Ok(r.value.Snapshot())
  {
    var state, error := RecomputeState(c, chain);
    if error.Some? { return Err(error.value); }
    var known, work := InitIndex(all, chain);
    var txIndex := ReindexAllTxs(c, chain);
    var addressIndex := ReindexAllAddressTxs(c, chain);
    var bc := new Blockchain(c, miner, store,
                             Node(known, chain, state, chain[|chain| - 1].hash, work, txIndex, addressIndex));
    return Ok(bc);
  }

  /** LoadBlockchain after configuration and genesis checks. */
  method LoadBlockchain(c: Config, miner: string, g: Block, store: BoltStore, appendOk: bool, putOk: bool)
    returns (r: Result<Blockchain, Error>)
    modifies store
    ensures store.Contents() == Started(c, g, old(store.Contents()), appendOk).1
    ensures r.Err? ==> Started(c, g, old(store.Contents()), appendOk).0 == Err(r.error)
    ensures r.Ok? ==> fresh(r.value) && r.value.cfg == c && r.value.minerAddress == miner && r.value.store == store
    ensures r.Ok? ==> Started(c, g, old(store.Contents()), appendOk).0 == Ok(r.value.Snapshot())
  {
    var chain := store.ReadCanonical();
    if chain.None? { return Err(CanonicalMissing); }
    var all := store.all;
    if chain.value != [] {
      r := Rebuild(c, miner, store, chain.value, all);
      return;
    }
    var ok := store.AppendCanonical(g, appendOk);
    if !ok { return Err(StoreFailed); }
    ok := store.PutBlock(g, putOk);
    r := Rebuild(c, miner, store, [g], all);
  }

  // ----- the first start -----

  lemma NothingStored()
    ensures Disk([], map[]).ReadCanonical() == Some([])
  {
    assert Disk([], map[]).ReadCanonical().value == [];
  }

  lemma GenesisLoads(c: Config, g: Block)
    requires FreshGenesis(c, g)
    ensures Loaded(c, [g], map[]) == Ok(Genesis(RulesOf(c), g))
  {
    assert [g][..0] == [];
    assert FileBlocks(map[], [g]) == map[g.hash := g];
    ReplayValue(c, [g], Unbounded);
  }

  /** The first start, over an empty store, is the state every run begins in. */
  lemma FirstStartIsGenesis(c: Config, g: Block)
    requires FreshGenesis(c, g)
    ensures Started(c, g, Disk([], map[]), true) == (Ok(Fresh(c, g).node), Fresh(c, g).disk)
  {
    NothingStored();
    GenesisLoads(c, g);
    assert [] + [g.hash] == [g.hash];
    assert Disk([], map[]).AppendCanonical(g) == Some(Disk([g.hash], map[g.hash := g]));
  }

  // ----- restarts along a run -----

  /** What a step does to the store's canonical chain: it becomes the node's with a restart, a mined block or a rewrite
      that commits, and stays otherwise. */
  ghost predicate MovesDisk(w: World, e: Event, v: World)
    requires OnDisk(w) && OnDisk(v)
  {
    if e.Restart? || (v.node.tip != w.node.tip && (e.Receive? ==> e.rewriteOk)) then Synced(v)
    else DiskChain(v) == DiskChain(w) && DiskTip(v) == DiskTip(w) && (v.node.tip != w.node.tip ==> !Synced(v))
  }

  lemma StepMovesDisk(c: Config, g: Block, w: World, e: Event)
    requires Sound(c, g, w.node) && OnDisk(w) && w.node.blocks != [] && Possible(c, g, w, e) && FitAt(c, w, e)
    ensures OnDisk(Step(c, g, w, e)) && MovesDisk(w, e, Step(c, g, w, e))
  {
    match e
    case Receive(b, now, putOk, rewriteOk) =>
      assert Step(c, g, w, e) == ReceiveStep(c, w, b, now, putOk, rewriteOk);
      ReceiveKeepsDisk(c, g, w, b, now, putOk, rewriteOk);
    case MineOne(job, nonce, appendOk) =>
      assert Step(c, g, w, e) == MineStep(c, w, job, nonce, appendOk);
      MineMovesDisk(c, g, w, job, nonce, appendOk);
    case AuditAt(now) =>
      assert Step(c, g, w, e) == AuditStep(c, w, now);
      AuditRepairs(c, g, w, now);
      DiskIgnoresAccounts(w, AuditStep(c, w, now));
      StillOnDisk(w, e, AuditStep(c, w, now));
    case Restart =>
      assert Step(c, g, w, e) == RestartStep(c, g, w);
      RestartKeeps(c, g, w);
  }

  lemma StillOnDisk(w: World, e: Event, v: World)
    requires OnDisk(w) && OnDisk(v) && v == World(w.node.(state := v.node.state), w.disk) && !e.Restart?
    ensures MovesDisk(w, e, v)
  {
  }

  lemma MineMovesDisk(c: Config, g: Block, w: World, job: Job, nonce: u64, appendOk: bool)
    requires Sound(c, g, w.node) && OnDisk(w) && w.node.blocks != []
    requires Possible(c, g, w, MineOne(job, nonce, appendOk)) && FitAt(c, w, MineOne(job, nonce, appendOk))
    ensures OnDisk(MineStep(c, w, job, nonce, appendOk))
    ensures MovesDisk(w, MineOne(job, nonce, appendOk), MineStep(c, w, job, nonce, appendOk))
  {
    if MineAt(c, w, job, nonce, appendOk).block.Ok? {
      MinedWithStore(c, w, job, nonce, appendOk);
      MineKeepsDisk(c, g, w, job, nonce, appendOk);
    } else {
      FailedKeepsDisk(c, w, job, nonce, appendOk);
      DiskIgnoresAccounts(w, MineStep(c, w, job, nonce, appendOk));
      StillOnDisk(w, MineOne(job, nonce, appendOk), MineStep(c, w, job, nonce, appendOk));
    }
  }

  /** The last change of tip since the last start, if any, reached the store's canonical chain. */
  ghost predicate InSync(events: seq<Event>, trace: seq<World>, i: nat)
    requires |trace| == |events| + 1 && i < |trace|
  {
    i > 0 && !events[i - 1].Restart? ==>
      if trace[i].node.tip == trace[i - 1].node.tip then InSync(events, trace, i - 1)
      else events[i - 1].Receive? ==> events[i - 1].rewriteOk
  }

  /** The last point at which the store's canonical chain was the node's. */
  ghost function SyncPoint(events: seq<Event>, trace: seq<World>, i: nat): (j: nat)
    requires |trace| == |events| + 1 && i < |trace|
    ensures j <= i
  {
    if InSync(events, trace, i) then i else SyncPoint(events, trace, i - 1)
  }

  lemma RunMovesDisk(c: Config, g: Block, events: seq<Event>, trace: seq<World>, i: nat, k: nat)
    requires IsRun(c, g, events, trace) && k < i < |trace| && AllFit(c, events, trace, i)
    ensures OnDisk(trace[k]) && OnDisk(trace[k + 1]) && MovesDisk(trace[k], events[k], trace[k + 1])
  {
    FitEarlier(c, events, trace, k, i);
    RunStands(c, g, events, trace, k);
    assert StepAt(c, g, events, trace, k);
    StepMovesDisk(c, g, trace[k], events[k]);
  }

  /** The store's canonical chain is the node's at the last point in sync. */
  ghost predicate SyncedAt(events: seq<Event>, trace: seq<World>, k: nat)
    requires |trace| == |events| + 1 && k < |trace|
  {
    && OnDisk(trace[k]) && (InSync(events, trace, k) <==> Synced(trace[k]))
    && DiskChain(trace[k]) == trace[SyncPoint(events, trace, k)].node.blocks
  }

  lemma NextSync(events: seq<Event>, trace: seq<World>, k: nat)
    requires |trace| == |events| + 1 && k < |events| && SyncedAt(events, trace, k) && OnDisk(trace[k + 1])
    requires MovesDisk(trace[k], events[k], trace[k + 1])
    requires Synced(trace[k + 1]) ==> DiskChain(trace[k + 1]) == trace[k + 1].node.blocks
    ensures SyncedAt(events, trace, k + 1)
  {
  }

  lemma SyncedHere(c: Config, g: Block, events: seq<Event>, trace: seq<World>, i: nat, k: nat)
    requires IsRun(c, g, events, trace) && k <= i < |trace| && AllFit(c, events, trace, i)
    ensures OnDisk(trace[k]) && (Synced(trace[k]) ==> DiskChain(trace[k]) == trace[k].node.blocks)
  {
    FitEarlier(c, events, trace, k, i);
    RunStands(c, g, events, trace, k);
    SyncedChain(c, g, trace[k]);
  }

  lemma RunSyncs(c: Config, g: Block, events: seq<Event>, trace: seq<World>, i: nat, k: nat)
    requires IsRun(c, g, events, trace) && k < i < |trace| && AllFit(c, events, trace, i)
    requires SyncedAt(events, trace, k)
    ensures SyncedAt(events, trace, k + 1)
  {
    RunMovesDisk(c, g, events, trace, i, k);
    SyncedHere(c, g, events, trace, i, k + 1);
    NextSync(events, trace, k);
  }

  /** Along every run the store knows every block the node knows, and its canonical chain is the node's at the last
      point in sync. */
  lemma RunDisk(c: Config, g: Block, events: seq<Event>, trace: seq<World>, i: nat)
    requires IsRun(c, g, events, trace) && i < |trace| && AllFit(c, events, trace, i)
    ensures trace[i].disk.all == trace[i].node.store && OnDisk(trace[i])
    ensures InSync(events, trace, i) <==> Synced(trace[i])
    ensures DiskChain(trace[i]) == trace[SyncPoint(events, trace, i)].node.blocks
  {
    RunStands(c, g, events, trace, i);
    RunStarts(c, g, events, trace);
    SyncedChain(c, g, trace[0]);
    for k := 0 to i
      invariant SyncedAt(events, trace, k)
    {
      RunSyncs(c, g, events, trace, i, k);
    }
  }

  lemma ChainMakesNode(c: Config, g: Block, store: Store, h: Bytes, s: Node)
    requires Sound(c, g, s) && PathTo(store, h, {}) == Ok(s.blocks) && Replay(c, s.blocks, Unbounded).Ok?
    requires h in store && store[h].hash == h
    ensures NodeAt(c, store, h) == Repaired(c, s).(store := store)
  {
    SoundChain(c, g, s);
    PathStructure(store, h);
  }

  /** A restart returns to the last point in sync, its accounts replayed, with every block learnt since. */
  lemma RestartReturns(c: Config, g: Block, events: seq<Event>, trace: seq<World>, i: nat)
    requires IsRun(c, g, events, trace) && i < |trace| && AllFit(c, events, trace, i)
    ensures Started(c, g, trace[i].disk, true)
            == (Ok(Repaired(c, trace[SyncPoint(events, trace, i)].node).(store := trace[i].node.store)), trace[i].disk)
  {
    var j := SyncPoint(events, trace, i);
    RunDisk(c, g, events, trace, i);
    RunStands(c, g, events, trace, i);
    FitEarlier(c, events, trace, j, i);
    RunStands(c, g, events, trace, j);
    RestartGives(c, g, trace[i]);
    ChainMakesNode(c, g, trace[i].node.store, DiskTip(trace[i]), trace[j].node);
  }

  /** A restart gives back the node if and only if the last change of tip reached the store's canonical chain and the
      accounts are the replay of the chain. */
  lemma RestartRestoresIff(c: Config, g: Block, events: seq<Event>, trace: seq<World>, i: nat)
    requires IsRun(c, g, events, trace) && i < |trace| && AllFit(c, events, trace, i)
    ensures Started(c, g, trace[i].disk, true).0 == Ok(trace[i].node)
            <==> InSync(events, trace, i) && Clean(c, trace[i].node)
  {
    RunDisk(c, g, events, trace, i);
    RunStands(c, g, events, trace, i);
    RestartGives(c, g, trace[i]);
    RestartKeeps(c, g, trace[i]);
  }

  /** Where the first half fails: a better block whose rewrite does not commit. The restarted node follows the old tip,
      which is no longer the best block it knows. */
  lemma FailedRewriteForgets(c: Config, g: Block, w: World, b: Block, now: i64)
    requires Inv(RulesOf(c), g, w.node) && w.node.blocks != [] && OnDisk(w) && Synced(w)
    requires ReceiveStep(c, w, b, now, true, false).node.tip != w.node.tip
    ensures var v := ReceiveStep(c, w, b, now, true, false);
            && Started(c, g, v.disk, true).0 == Ok(w.node.(store := v.node.store))
            && v.node.tip == b.hash && b.hash in v.node.store && Better(v.node.work, b.hash, w.node.work, w.node.tip)
  {
    var v := ReceiveStep(c, w, b, now, true, false);
    FollowsIsClean(c, g, w.node);
    FollowedIsBetter(RulesOf(c), w.node, b, now, true, false);
    ReceiveKeepsSound(c, g, w.node, b, now, true, false);
    ReceiveKeepsDisk(c, g, w, b, now, true, false);
    SyncedChain(c, g, w);
    RestartGives(c, g, v);
    ChainMakesNode(c, g, v.node.store, DiskTip(v), w.node);
  }

  /** Where the second half fails: a valid block whose append does not commit. The store stays in sync, and the
      restarted node has the accounts from before the step, not those of the node. */
  lemma FailedAppendForgets(c: Config, g: Block, w: World, job: Job, nonce: u64)
    requires Inv(RulesOf(c), g, w.node) && w.node.blocks != [] && OnDisk(w) && Synced(w)
    requires Mine(c, w.node, job, nonce, true).block.Ok?
    ensures var v := MineStep(c, w, job, nonce, false);
            && OnDisk(v) && Synced(v) && v.node.tip == w.node.tip
            && Started(c, g, v.disk, true).0 == Ok(w.node) && v.node.state != w.node.state
  {
    var v := MineStep(c, w, job, nonce, false);
    FollowsIsClean(c, g, w.node);
    StoreFailureChangesAccounts(c, w.node, job, nonce);
    FailedKeepsDisk(c, w, job, nonce, false);
    DiskIgnoresAccounts(w, v);
    RestartGives(c, g, w);
    RestartKeeps(c, g, w);
  }
}
