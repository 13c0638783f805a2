/** What may happen to a node, the runs it makes up, and what is said of them. */
module Traces {
  import opened Words
  import opened Types
  import opened Ledger
  import opened Difficulty
  import opened TimeRules
  import opened BlockTree
  import opened ForkChoice
  import opened NodeRules
  import opened Disks
  import opened Worlds
  import opened MiningTheorems
  import opened Soundness
  import opened Audit
  import opened Restarts
  import opened Acceptance

  /** What may happen to a node; the flags say whether the store's transactions commit. */
  datatype Event =
    | Receive(b: Block, now: i64, putOk: bool, rewriteOk: bool)
    | MineOne(job: Job, nonce: u64, appendOk: bool)
    | AuditAt(now: i64)
    | Restart

  /** A fresh genesis block under parameters a genesis file may carry. */
  ghost predicate FreshGenesis(c: Config, g: Block) {
    && ParamsOk(c.params)
    && GenesisOk(RulesOf(c), g)
    && g.bits == c.params.genesisDifficultyBits && |g.txs| == 1
  }

  /** The genesis node over a store that holds just the genesis block. */
  ghost function Fresh(c: Config, g: Block): World
    requires GenesisOk(RulesOf(c), g)
  {
    World(Genesis(RulesOf(c), g), Disk([g.hash], map[g.hash := g]))
  }

  function Step(c: Config, g: Block, w: World, e: Event): World
    requires w.node.blocks != []
  {
    match e
    case Receive(b, now, putOk, rewriteOk) => ReceiveStep(c, w, b, now, putOk, rewriteOk)
    case MineOne(job, nonce, appendOk) => MineStep(c, w, job, nonce, appendOk)
    case AuditAt(now) => AuditStep(c, w, now)
    case Restart => RestartStep(c, g, w)
  }

  /** Any delivery may happen, any audit, any mining step that fails, wherever it fails, and any restart that loads. A
      mining step that succeeds does so with a nonce that solves the block and a hash not stored yet. */
  ghost predicate Possible(c: Config, g: Block, w: World, e: Event)
    requires w.node.blocks != []
  {
    && (e.MineOne? && MineAt(c, w, e.job, e.nonce, e.appendOk).block.Ok? ==> Mineable(c, w.node, e.job, e.nonce))
    && (e.Restart? ==> Started(c, g, w.disk, true).0.Ok?)
  }

  ghost predicate StepAt(c: Config, g: Block, events: seq<Event>, trace: seq<World>, i: nat)
    requires i < |events| && i + 1 < |trace|
  {
    && trace[i].node.blocks != [] && Possible(c, g, trace[i], events[i])
    && trace[i + 1] == Step(c, g, trace[i], events[i])
  }

  /** `trace` is the sequence of worlds that `events` produce from genesis. */
  ghost predicate IsRun(c: Config, g: Block, events: seq<Event>, trace: seq<World>) {
    && FreshGenesis(c, g)
    && |trace| == |events| + 1 && trace[0] == Fresh(c, g)
    && forall i :: 0 <= i < |events| ==> StepAt(c, g, events, trace, i)
  }

  ghost function Last(trace: seq<World>): World
    requires trace != []
  {
    trace[|trace| - 1]
  }

  /** A block mined in this step fits the accounts of the chain it is mined on. */
  ghost predicate FitAt(c: Config, w: World, e: Event) {
    w.node.blocks != [] && e.MineOne? && MineAt(c, w, e.job, e.nonce, e.appendOk).block.Ok? ==>
      Fits(c, w.node, MineAt(c, w, e.job, e.nonce, e.appendOk).block.value)
  }

  /** Every block mined up to point `i` did. */
  ghost predicate AllFit(c: Config, events: seq<Event>, trace: seq<World>, i: nat)
    requires |trace| == |events| + 1 && i < |trace|
  {
    forall k {:trigger FitAt(c, trace[k], events[k])} :: 0 <= k < i ==> FitAt(c, trace[k], events[k])
  }

  /** The step rebuilds the accounts from the chain. */
  ghost predicate Rebuilds(c: Config, w: World, e: Event, v: World) {
    || e.Restart?
    || (e.Receive? && v.node.tip != w.node.tip)
    || (e.AuditAt? && AuditHeaders(c, w.node.blocks, At(e.now)).None?)
  }

  /** The step moves the tip or leaves the accounts alone. */
  ghost predicate StateKept(w: World, v: World) {
    v.node.tip == w.node.tip ==> v.node.state == w.node.state
  }

  /** What a step does for a sound node and its store. */
  ghost predicate KeepsSound(c: Config, g: Block, w: World, e: Event, v: World) {
    && Sound(c, g, v.node) && OnDisk(v)
    && (Rebuilds(c, w, e, v) || (Clean(c, w.node) && StateKept(w, v)) ==> Clean(c, v.node))
  }

  /** The tip that a restart gives up, if any. */
  ghost function GivenUp(w: World, e: Event, v: World): set<Bytes> {
    if e.Restart? && v.node.tip != w.node.tip then {w.node.tip} else {}
  }

  ghost function Lost(events: seq<Event>, trace: seq<World>, i: nat): set<Bytes>
    requires |trace| == |events| + 1 && i < |trace|
  {
    if i == 0 then {} else Lost(events, trace, i - 1) + GivenUp(trace[i - 1], events[i - 1], trace[i])
  }

  /** Every known block is topped by the tip or by a tip given up. */
  ghost predicate KeepsTops(c: Config, g: Block, w: World, e: Event, v: World, lost: set<Bytes>) {
    && StoreOk(RulesOf(c), g, v.node.store)
    && Tops(RulesOf(c), g, v.node.store, v.node.tip, lost + GivenUp(w, e, v))
  }

  /** A sound node over its store, all known blocks topped by its tip or by tips given up. */
  ghost predicate Stands(c: Config, g: Block, w: World, lost: set<Bytes>) {
    Sound(c, g, w.node) && OnDisk(w) && Tops(RulesOf(c), g, w.node.store, w.node.tip, lost)
  }

  /** The same at point `k` of a run, with the tips given up so far. */
  ghost predicate StandsAt(c: Config, g: Block, events: seq<Event>, trace: seq<World>, k: nat)
    requires |trace| == |events| + 1 && k < |trace|
  {
    Stands(c, g, trace[k], Lost(events, trace, k))
  }

  /** The accounts have been rebuilt since a mining step last failed on them. */
  ghost predicate Tidy(c: Config, events: seq<Event>, trace: seq<World>, i: nat)
    requires |trace| == |events| + 1 && i < |trace|
  {
    i > 0 ==>
      || Rebuilds(c, trace[i - 1], events[i - 1], trace[i])
      || (StateKept(trace[i - 1], trace[i]) && Tidy(c, events, trace, i - 1))
  }

  /** The tip tops every tip that a restart gave up. */
  ghost predicate Regained(c: Config, g: Block, s: Node, lost: set<Bytes>)
    requires Sound(c, g, s) && s.tip in s.store
  {
    forall l :: l in lost && l in s.store ==> NotAbove(RulesOf(c), g, s.store, l, s.tip)
  }

  /** Every stored block but genesis passes admission. */
  ghost predicate AllAdmitted(c: Config, g: Block, store: Store) {
    forall h :: h in store ==> store[h] == g || Admission(c, store[h]).None?
  }

  /** The step stores nothing, or one block that passes admission. */
  ghost predicate StoresAdmitted(c: Config, store: Store, later: Store) {
    later == store || exists b: Block :: Admission(c, b).None? && later == store[b.hash := b]
  }

  /** In range, and at most one step from the block before. */
  ghost predicate BitsOk(p: ConsensusParams, blocks: seq<Block>, k: nat)
    requires k < |blocks|
  {
    && InRange(p, blocks[k].bits) && (k <= p.difficultyWindow ==> blocks[k].bits == blocks[0].bits)
    && (k > 0 ==> blocks[k - 1].bits - p.difficultyMaxStep <= blocks[k].bits
                  <= blocks[k - 1].bits + p.difficultyMaxStep)
  }

  /** From block `k - 1` to block `k` an account moved only by its receipts or by a transfer signed with its key. */
  ghost predicate MovesExplained(c: Config, blocks: seq<Block>, k: nat, a: string)
    requires k < |blocks|
  {
    Explained(c, Lookup(ApplyBlocks(c, blocks[..k]).state, a), blocks[k],
              Lookup(ApplyBlocks(c, blocks[..k + 1]).state, a), a)
  }
}
