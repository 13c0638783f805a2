/** Whole runs of a node from a fresh genesis, and what holds at the end of every one. */
module Runs {
  import opened Words
  import opened Types
  import opened TxRules
  import opened Ledger
  import opened TimeRules
  import opened Pow
  import opened PathRules
  import opened BlockTree
  import opened NoReplay
  import opened Indexes
  import opened ForkChoice
  import opened NodeRules
  import opened Disks
  import opened Worlds
  import opened Traces
  import opened MiningTheorems
  import opened Soundness
  import opened Audit
  import opened Restarts
  import opened Acceptance
  import opened Conservation

  // ----- what every run keeps -----

  lemma StepRemembers(c: Config, g: Block, w: World, e: Event)
    requires Kept(w) && Possible(c, g, w, e)
    ensures Kept(Step(c, g, w, e)) && Remembers(Step(c, g, w, e), w)
  {
    match e
    case Receive(b, now, putOk, rewriteOk) => ReceiveRemembers(c, w, b, now, putOk, rewriteOk);
    case MineOne(job, nonce, appendOk) => MineRemembers(c, w, job, nonce, appendOk);
    case AuditAt(_) =>
    case Restart => RestartRemembers(c, g, w);
  }

  lemma NextRemembers(c: Config, g: Block, events: seq<Event>, trace: seq<World>, i: nat)
    requires IsRun(c, g, events, trace) && i < |events| && Kept(trace[i])
    ensures Kept(trace[i + 1]) && Remembers(trace[i + 1], trace[i])
  {
    assert StepAt(c, g, events, trace, i);
    StepRemembers(c, g, trace[i], events[i]);
  }

  lemma FreshIsKept(c: Config, g: Block)
    requires GenesisOk(RulesOf(c), g)
    ensures Kept(Fresh(c, g))
  {
  }

  lemma RunIsKept(c: Config, g: Block, events: seq<Event>, trace: seq<World>, i: nat)
    requires IsRun(c, g, events, trace) && i < |trace|
    ensures Kept(trace[i])
  {
    FreshIsKept(c, g);
    for k := 0 to i
      invariant Kept(trace[k])
    {
      NextRemembers(c, g, events, trace, k);
    }
  }

  /** Blocks are never forgotten, whatever was mined. */
  lemma RunRemembers(c: Config, g: Block, events: seq<Event>, trace: seq<World>, k: nat, i: nat)
    requires IsRun(c, g, events, trace) && k <= i < |trace|
    ensures Kept(trace[i]) && Remembers(trace[i], trace[k])
  {
    RunIsKept(c, g, events, trace, k);
    for j := k to i
      invariant Kept(trace[j]) && Remembers(trace[j], trace[k])
    {
      NextRemembers(c, g, events, trace, j);
    }
  }

  lemma ReceiveStepKeepsSound(c: Config, g: Block, w: World, b: Block, now: i64, putOk: bool, rewriteOk: bool)
    requires Sound(c, g, w.node) && OnDisk(w) && w.node.blocks != []
    ensures KeepsSound(c, g, w, Receive(b, now, putOk, rewriteOk), ReceiveStep(c, w, b, now, putOk, rewriteOk))
  {
    ReceiveKeepsSound(c, g, w.node, b, now, putOk, rewriteOk);
    ReceiveKeepsDisk(c, g, w, b, now, putOk, rewriteOk);
  }

  lemma FailedStepKeepsSound(c: Config, g: Block, w: World, job: Job, nonce: u64, appendOk: bool)
    requires Sound(c, g, w.node) && OnDisk(w) && w.node.blocks != [] && MineAt(c, w, job, nonce, appendOk).block.Err?
    ensures KeepsSound(c, g, w, MineOne(job, nonce, appendOk), MineStep(c, w, job, nonce, appendOk))
  {
    FailedKeepsDisk(c, w, job, nonce, appendOk);
    OnlyAccountsChanged(c, g, w, MineOne(job, nonce, appendOk), MineStep(c, w, job, nonce, appendOk));
  }

  lemma OnlyAccountsChanged(c: Config, g: Block, w: World, e: Event, v: World)
    requires Sound(c, g, w.node) && OnDisk(w) && e.MineOne? && v == World(w.node.(state := v.node.state), w.disk)
    ensures KeepsSound(c, g, w, e, v)
  {
    DiskIgnoresAccounts(w, v);
  }

  lemma MinedStepKeepsSound(c: Config, g: Block, w: World, job: Job, nonce: u64, appendOk: bool)
    requires Mined(c, g, w.node, job, nonce) && OnDisk(w) && MineAt(c, w, job, nonce, appendOk).block.Ok?
    requires Fits(c, w.node, MineAt(c, w, job, nonce, appendOk).block.value)
    ensures KeepsSound(c, g, w, MineOne(job, nonce, appendOk), MineStep(c, w, job, nonce, appendOk))
  {
    MinedWithStore(c, w, job, nonce, appendOk);
    FittingMineKeepsSound(c, g, w.node, job, nonce);
    MineKeepsDisk(c, g, w, job, nonce, appendOk);
  }

  lemma MineStepKeepsSound(c: Config, g: Block, w: World, job: Job, nonce: u64, appendOk: bool)
    requires Sound(c, g, w.node) && OnDisk(w) && w.node.blocks != []
    requires Possible(c, g, w, MineOne(job, nonce, appendOk)) && FitAt(c, w, MineOne(job, nonce, appendOk))
    ensures KeepsSound(c, g, w, MineOne(job, nonce, appendOk), MineStep(c, w, job, nonce, appendOk))
  {
    if MineAt(c, w, job, nonce, appendOk).block.Ok? {
      MinedWithStore(c, w, job, nonce, appendOk);
      MinedStepKeepsSound(c, g, w, job, nonce, appendOk);
    } else {
      FailedStepKeepsSound(c, g, w, job, nonce, appendOk);
    }
  }

  lemma AuditStepKeepsSound(c: Config, g: Block, w: World, now: i64)
    requires Sound(c, g, w.node) && OnDisk(w)
    ensures KeepsSound(c, g, w, AuditAt(now), AuditStep(c, w, now))
  {
    AuditRepairs(c, g, w, now);
    DiskIgnoresAccounts(w, AuditStep(c, w, now));
  }

  lemma RestartStepKeepsSound(c: Config, g: Block, w: World)
    requires Sound(c, g, w.node) && OnDisk(w)
    ensures KeepsSound(c, g, w, Restart, RestartStep(c, g, w))
  {
    RestartKeeps(c, g, w);
  }

  /** One step, whatever it is, keeps a node sound unless it mines a block that does not fit. It leaves clean accounts
      when it rebuilds them, and keeps them clean unless it is a mining step that fails after touching them. */
  lemma StepKeepsSound(c: Config, g: Block, w: World, e: Event)
    requires Sound(c, g, w.node) && OnDisk(w) && w.node.blocks != [] && Possible(c, g, w, e) && FitAt(c, w, e)
    ensures KeepsSound(c, g, w, e, Step(c, g, w, e))
  {
    match e
    case Receive(b, now, putOk, rewriteOk) =>
      assert Step(c, g, w, e) == ReceiveStep(c, w, b, now, putOk, rewriteOk);
      ReceiveStepKeepsSound(c, g, w, b, now, putOk, rewriteOk);
    case MineOne(job, nonce, appendOk) =>
      assert Step(c, g, w, e) == MineStep(c, w, job, nonce, appendOk);
      MineStepKeepsSound(c, g, w, job, nonce, appendOk);
    case AuditAt(now) =>
      assert Step(c, g, w, e) == AuditStep(c, w, now);
      AuditStepKeepsSound(c, g, w, now);
    case Restart =>
      assert Step(c, g, w, e) == RestartStep(c, g, w);
      RestartStepKeepsSound(c, g, w);
  }

  lemma OldTipTops(r: Rules, g: Block, store: Store, tip: Bytes, next: Bytes, lost: set<Bytes>)
    requires StoreOk(r, g, store) && Tops(r, g, store, tip, lost) && next in store
    ensures Tops(r, g, store, next, lost + {tip})
  {
    forall h | h in store ensures Topped(r, g, store, next, lost + {tip}, h) {
      var work := WorkOf(r, g, store, h);
      assert Topped(r, g, store, tip, lost, h);
    }
  }

  lemma NothingGivenUp(c: Config, g: Block, w: World, e: Event, v: World, lost: set<Bytes>)
    requires StoreOk(RulesOf(c), g, v.node.store) && Tops(RulesOf(c), g, v.node.store, v.node.tip, lost)
    requires e.Restart? ==> v.node.tip == w.node.tip
    ensures KeepsTops(c, g, w, e, v, lost)
  {
    assert lost + GivenUp(w, e, v) == lost;
  }

  lemma RestartKeepsTops(c: Config, g: Block, w: World, lost: set<Bytes>)
    requires Sound(c, g, w.node) && OnDisk(w) && Tops(RulesOf(c), g, w.node.store, w.node.tip, lost)
    ensures KeepsTops(c, g, w, Restart, RestartStep(c, g, w), lost)
  {
    var v := RestartStep(c, g, w);
    RestartKeeps(c, g, w);
    SoundChain(c, g, v.node);
    if v.node.tip == w.node.tip {
      NothingGivenUp(c, g, w, Restart, v, lost);
    } else {
      OldTipTops(RulesOf(c), g, w.node.store, w.node.tip, v.node.tip, lost);
    }
  }

  lemma MineKeepsTops(c: Config, g: Block, w: World, job: Job, nonce: u64, appendOk: bool, lost: set<Bytes>)
    requires Sound(c, g, w.node) && OnDisk(w) && w.node.blocks != []
    requires Possible(c, g, w, MineOne(job, nonce, appendOk)) && FitAt(c, w, MineOne(job, nonce, appendOk))
    requires Tops(RulesOf(c), g, w.node.store, w.node.tip, lost)
    ensures var n := MineStep(c, w, job, nonce, appendOk).node;
            StoreOk(RulesOf(c), g, n.store) && Tops(RulesOf(c), g, n.store, n.tip, lost)
  {
    if MineAt(c, w, job, nonce, appendOk).block.Ok? {
      MinedWithStore(c, w, job, nonce, appendOk);
      FittingMineKeepsTops(c, g, w.node, job, nonce, lost);
    } else {
      FailedKeepsDisk(c, w, job, nonce, appendOk);
    }
  }

  lemma AuditKeepsTops(c: Config, g: Block, w: World, now: i64, lost: set<Bytes>)
    requires Sound(c, g, w.node) && Tops(RulesOf(c), g, w.node.store, w.node.tip, lost)
    ensures KeepsTops(c, g, w, AuditAt(now), AuditStep(c, w, now), lost)
  {
    AuditRepairs(c, g, w, now);
    NothingGivenUp(c, g, w, AuditAt(now), AuditStep(c, w, now), lost);
  }

  lemma StepKeepsTops(c: Config, g: Block, w: World, e: Event, lost: set<Bytes>)
    requires Sound(c, g, w.node) && OnDisk(w) && w.node.blocks != [] && Possible(c, g, w, e) && FitAt(c, w, e)
    requires Tops(RulesOf(c), g, w.node.store, w.node.tip, lost)
    ensures KeepsTops(c, g, w, e, Step(c, g, w, e), lost)
  {
    match e
    case Receive(b, now, putOk, rewriteOk) =>
      assert Step(c, g, w, e) == ReceiveStep(c, w, b, now, putOk, rewriteOk);
      ReceiveKeepsTops(c, g, w.node, b, now, putOk, rewriteOk, lost);
      NothingGivenUp(c, g, w, e, Step(c, g, w, e), lost);
    case MineOne(job, nonce, appendOk) =>
      assert Step(c, g, w, e) == MineStep(c, w, job, nonce, appendOk);
      MineKeepsTops(c, g, w, job, nonce, appendOk, lost);
      NothingGivenUp(c, g, w, e, Step(c, g, w, e), lost);
    case AuditAt(now) =>
      assert Step(c, g, w, e) == AuditStep(c, w, now);
      AuditKeepsTops(c, g, w, now, lost);
    case Restart =>
      assert Step(c, g, w, e) == RestartStep(c, g, w);
      RestartKeepsTops(c, g, w, lost);
  }

  // ----- whole runs -----

  lemma FreshStands(c: Config, g: Block)
    requires GenesisOk(RulesOf(c), g)
    ensures Stands(c, g, Fresh(c, g), {}) && Clean(c, Fresh(c, g).node)
  {
    var w := Fresh(c, g);
    GenesisInv(RulesOf(c), g);
    FollowsIsClean(c, g, w.node);
    assert Hashes([g]) == [g.hash];
    WrittenDisk(c, g, w);
    forall h | h in w.node.store ensures Topped(RulesOf(c), g, w.node.store, w.node.tip, {}, h) {
      assert NotAbove(RulesOf(c), g, w.node.store, h, w.node.tip);
    }
  }

  lemma RunStarts(c: Config, g: Block, events: seq<Event>, trace: seq<World>)
    requires IsRun(c, g, events, trace)
    ensures StandsAt(c, g, events, trace, 0) && Clean(c, trace[0].node)
  {
    FreshStands(c, g);
  }

  lemma StepStands(c: Config, g: Block, w: World, e: Event, lost: set<Bytes>)
    requires Stands(c, g, w, lost) && w.node.blocks != [] && Possible(c, g, w, e) && FitAt(c, w, e)
    ensures KeepsSound(c, g, w, e, Step(c, g, w, e))
    ensures Stands(c, g, Step(c, g, w, e), lost + GivenUp(w, e, Step(c, g, w, e)))
  {
    StepKeepsSound(c, g, w, e);
    StepKeepsTops(c, g, w, e, lost);
  }

  lemma RunStep(c: Config, g: Block, events: seq<Event>, trace: seq<World>, i: nat)
    requires IsRun(c, g, events, trace) && i < |events| && StandsAt(c, g, events, trace, i)
    requires FitAt(c, trace[i], events[i])
    ensures KeepsSound(c, g, trace[i], events[i], trace[i + 1])
    ensures StandsAt(c, g, events, trace, i + 1)
  {
    assert StepAt(c, g, events, trace, i);
    StepStands(c, g, trace[i], events[i], Lost(events, trace, i));
  }

  lemma NextStands(c: Config, g: Block, events: seq<Event>, trace: seq<World>, i: nat, k: nat)
    requires IsRun(c, g, events, trace) && k < i < |trace| && AllFit(c, events, trace, i)
    requires StandsAt(c, g, events, trace, k)
    ensures StandsAt(c, g, events, trace, k + 1)
    ensures KeepsSound(c, g, trace[k], events[k], trace[k + 1])
  {
    RunStep(c, g, events, trace, k);
  }

  lemma RunStands(c: Config, g: Block, events: seq<Event>, trace: seq<World>, i: nat)
    requires IsRun(c, g, events, trace) && i < |trace| && AllFit(c, events, trace, i)
    ensures StandsAt(c, g, events, trace, i)
  {
    RunStarts(c, g, events, trace);
    for k := 0 to i
      invariant StandsAt(c, g, events, trace, k)
    {
      NextStands(c, g, events, trace, i, k);
    }
  }

  lemma FitEarlier(c: Config, events: seq<Event>, trace: seq<World>, k: nat, i: nat)
    requires |trace| == |events| + 1 && k <= i < |trace| && AllFit(c, events, trace, i)
    ensures AllFit(c, events, trace, k)
  {
  }

  lemma UnfitStep(c: Config, g: Block, w: World, e: Event)
    requires Sound(c, g, w.node) && w.node.blocks != [] && Possible(c, g, w, e) && !FitAt(c, w, e)
    ensures Tainted(c, g, Step(c, g, w, e).node.store)
  {
    MinedWithStore(c, w, e.job, e.nonce, e.appendOk);
    UnfitTaints(c, g, w.node, e.job, e.nonce);
  }

  lemma UnfitAt(c: Config, g: Block, events: seq<Event>, trace: seq<World>, k: nat)
    requires IsRun(c, g, events, trace) && k < |events| && AllFit(c, events, trace, k)
    requires !FitAt(c, trace[k], events[k])
    ensures Tainted(c, g, trace[k + 1].node.store)
  {
    RunStands(c, g, events, trace, k);
    assert StepAt(c, g, events, trace, k);
    UnfitStep(c, g, trace[k], events[k]);
  }

  lemma TaintForGood(c: Config, g: Block, events: seq<Event>, trace: seq<World>, k: nat, i: nat)
    requires IsRun(c, g, events, trace) && k <= i < |trace| && Tainted(c, g, trace[k].node.store)
    ensures Tainted(c, g, trace[i].node.store) && !Sound(c, g, trace[i].node)
  {
    RunRemembers(c, g, events, trace, k, i);
    TaintStays(c, g, trace[k].node.store, trace[i].node.store);
    TaintedIsNotSound(c, g, trace[i].node);
  }

  /** A block that does not fit is never forgotten, and the node is never sound again. */
  lemma {:induction false} UnfitForGood(c: Config, g: Block, events: seq<Event>, trace: seq<World>, i: nat)
    requires IsRun(c, g, events, trace) && i < |trace| && !AllFit(c, events, trace, i)
    ensures Tainted(c, g, trace[i].node.store) && !Sound(c, g, trace[i].node)
  {
    var k :| 0 <= k < i && !FitAt(c, trace[k], events[k]);
    if AllFit(c, events, trace, k) {
      UnfitAt(c, g, events, trace, k);
      TaintForGood(c, g, events, trace, k + 1, i);
    } else {
      UnfitForGood(c, g, events, trace, k);
      TaintForGood(c, g, events, trace, k, i);
    }
  }

  lemma TidyIsClean(c: Config, g: Block, events: seq<Event>, trace: seq<World>, i: nat)
    requires IsRun(c, g, events, trace) && i < |trace| && AllFit(c, events, trace, i) && Tidy(c, events, trace, i)
    ensures Clean(c, trace[i].node)
  {
    RunStarts(c, g, events, trace);
    for k := 0 to i
      invariant Tidy(c, events, trace, k) ==> Clean(c, trace[k].node)
    {
      if Tidy(c, events, trace, k + 1) {
        TidyBefore(c, events, trace, k);
        TidyStep(c, g, events, trace, i, k);
      }
    }
  }

  lemma TidyBefore(c: Config, events: seq<Event>, trace: seq<World>, k: nat)
    requires |trace| == |events| + 1 && k < |events| && Tidy(c, events, trace, k + 1)
    ensures || Rebuilds(c, trace[k], events[k], trace[k + 1])
            || (StateKept(trace[k], trace[k + 1]) && Tidy(c, events, trace, k))
  {
  }

  lemma TidyStep(c: Config, g: Block, events: seq<Event>, trace: seq<World>, i: nat, k: nat)
    requires IsRun(c, g, events, trace) && k < i < |trace| && AllFit(c, events, trace, i)
    requires || Rebuilds(c, trace[k], events[k], trace[k + 1])
             || (Clean(c, trace[k].node) && StateKept(trace[k], trace[k + 1]))
    ensures Clean(c, trace[k + 1].node)
  {
    FitEarlier(c, events, trace, k, i);
    RunStands(c, g, events, trace, k);
    NextStands(c, g, events, trace, i, k);
  }

  lemma StaysKnown(c: Config, g: Block, events: seq<Event>, trace: seq<World>, k: nat)
    requires IsRun(c, g, events, trace) && k < |events|
    ensures trace[k].node.tip in trace[k + 1].node.store
    ensures forall h :: h in trace[k].node.store ==> h in trace[k + 1].node.store
  {
    RunIsKept(c, g, events, trace, k);
    NextRemembers(c, g, events, trace, k);
  }

  lemma LostEarlier(events: seq<Event>, trace: seq<World>, k: nat, l: Bytes)
    requires |trace| == |events| + 1 && k < |events| && l in Lost(events, trace, k + 1)
    ensures l in Lost(events, trace, k) || l == trace[k].node.tip
  {
  }

  /** The tips given up are among the blocks known. */
  lemma LostIsKnown(c: Config, g: Block, events: seq<Event>, trace: seq<World>, i: nat, l: Bytes)
    requires IsRun(c, g, events, trace) && i < |trace| && l in Lost(events, trace, i)
    ensures l in trace[i].node.store
  {
    for k := 0 to i
      invariant l in Lost(events, trace, k) ==> l in trace[k].node.store
    {
      if l in Lost(events, trace, k + 1) {
        LostEarlier(events, trace, k, l);
        StaysKnown(c, g, events, trace, k);
      }
    }
  }

  /** At every point of every run: the node is sound if and only if every block it mined fitted; then its tip is the
      best block it knows if and only if it tops the tips that restarts gave up, and its accounts are the replay of its
      chain unless a mining step has failed on them since they were last rebuilt. */
  lemma RunInvariant(c: Config, g: Block, events: seq<Event>, trace: seq<World>, i: nat)
    requires IsRun(c, g, events, trace) && i < |trace|
    ensures var s, lost := trace[i].node, Lost(events, trace, i);
            && (Sound(c, g, s) && Leads(c, g, s) && Clean(c, s) <==> Inv(RulesOf(c), g, s))
            && (Sound(c, g, s) <==> AllFit(c, events, trace, i))
            && (forall l :: l in lost ==> l in s.store)
            && (Sound(c, g, s) ==> s.tip in s.store && (Leads(c, g, s) <==> Regained(c, g, s, lost)))
            && (Sound(c, g, s) && Tidy(c, events, trace, i) ==> Clean(c, s))
  {
    InvIsThreefold(c, g, trace[i].node);
    forall l | l in Lost(events, trace, i) ensures l in trace[i].node.store { LostIsKnown(c, g, events, trace, i, l); }
    if AllFit(c, events, trace, i) {
      RunStands(c, g, events, trace, i);
      BestIff(RulesOf(c), g, trace[i].node.store, trace[i].node.tip, Lost(events, trace, i));
      if Tidy(c, events, trace, i) { TidyIsClean(c, g, events, trace, i); }
    } else {
      UnfitForGood(c, g, events, trace, i);
    }
  }

  /** Blocks mined on clean accounts with room above all fit. */
  lemma CleanRunFits(c: Config, g: Block, events: seq<Event>, trace: seq<World>, i: nat)
    requires IsRun(c, g, events, trace) && i < |trace|
    requires forall k :: 0 <= k < i && events[k].MineOne? ==>
                           trace[k].node.blocks != [] && Room(trace[k].node) && Clean(c, trace[k].node)
    ensures AllFit(c, events, trace, i)
  {
    forall k | 0 <= k < i ensures FitAt(c, trace[k], events[k]) {
      var w, e := trace[k], events[k];
      if e.MineOne? && MineAt(c, w, e.job, e.nonce, e.appendOk).block.Ok? {
        MinedWithStore(c, w, e.job, e.nonce, e.appendOk);
        CleanMineFits(c, w.node, e.job, e.nonce);
      }
    }
  }

  /** Absent collisions, a block mined on the best tip always has a new hash. */
  lemma LeadingMinesNew(c: Config, g: Block, s: Node, job: Job, nonce: u64)
    requires Sound(c, g, s) && s.blocks != [] && Leads(c, g, s) && Room(s) && ParamsOk(c.params)
    requires HeaderNamesParent(c.env) && HeaderOf(c, Candidate(c, s, job), nonce).Some?
    requires FreshHeader(c, s.store, HeaderOf(c, Candidate(c, s, job), nonce).value)
    requires Candidate(c, s, job).bits <= MAX_DIFFICULTY_BITS && Solves(c, Candidate(c, s, job), nonce)
    ensures Mineable(c, s, job, nonce)
  {
    var t := Repaired(c, s);
    SoundChain(c, g, s);
    CandidateIgnoresAccounts(c, s, job, nonce, Accounts(c, s));
    MinedHashIsNew(c, g, t, Candidate(c, t, job), nonce);
  }

  // ----- the blocks a run stores -----

  lemma MinedIsAdmittedToo(c: Config, g: Block, w: World, e: Event)
    requires Sound(c, g, w.node) && w.node.blocks != [] && e.MineOne? && Possible(c, g, w, e) && FitAt(c, w, e)
    requires MineAt(c, w, e.job, e.nonce, e.appendOk).block.Ok?
    ensures var b := MineAt(c, w, e.job, e.nonce, e.appendOk).block.value;
            Admission(c, b).None? && Step(c, g, w, e).node.store == w.node.store[b.hash := b]
  {
    MinedWithStore(c, w, e.job, e.nonce, e.appendOk);
    var b := MinedShape(c, w.node, e.job, e.nonce);
    FittingMine(c, g, w.node, e.job, e.nonce);
    MineOnOtherAccounts(c, w.node, e.job, e.nonce, Accounts(c, w.node));
    MinedIsAdmitted(c, g, Repaired(c, w.node), e.job, e.nonce);
  }

  lemma StepKeepsAdmitted(c: Config, g: Block, w: World, e: Event)
    requires Sound(c, g, w.node) && OnDisk(w) && w.node.blocks != [] && Possible(c, g, w, e) && FitAt(c, w, e)
    requires AllAdmitted(c, g, w.node.store)
    ensures AllAdmitted(c, g, Step(c, g, w, e).node.store)
  {
    StepStoresAdmitted(c, g, w, e);
    StillAdmitted(c, g, w.node.store, Step(c, g, w, e).node.store);
  }

  lemma StillAdmitted(c: Config, g: Block, store: Store, later: Store)
    requires AllAdmitted(c, g, store) && StoresAdmitted(c, store, later)
    ensures AllAdmitted(c, g, later)
  {
  }

  lemma StepStoresAdmitted(c: Config, g: Block, w: World, e: Event)
    requires Sound(c, g, w.node) && OnDisk(w) && w.node.blocks != [] && Possible(c, g, w, e) && FitAt(c, w, e)
    ensures StoresAdmitted(c, w.node.store, Step(c, g, w, e).node.store)
  {
    match e
    case Receive(b, now, putOk, rewriteOk) =>
      assert Step(c, g, w, e) == ReceiveStep(c, w, b, now, putOk, rewriteOk);
      ReceiveStoresAdmitted(c, w, b, now, putOk, rewriteOk);
    case MineOne(job, nonce, appendOk) =>
      assert Step(c, g, w, e) == MineStep(c, w, job, nonce, appendOk);
      MineStoresAdmitted(c, g, w, job, nonce, appendOk);
    case AuditAt(now) =>
      assert Step(c, g, w, e) == AuditStep(c, w, now);
    case Restart =>
      assert Step(c, g, w, e) == RestartStep(c, g, w);
      RestartKeeps(c, g, w);
  }

  lemma ReceiveStoresAdmitted(c: Config, w: World, b: Block, now: i64, putOk: bool, rewriteOk: bool)
    requires w.node.blocks != []
    ensures StoresAdmitted(c, w.node.store, ReceiveStep(c, w, b, now, putOk, rewriteOk).node.store)
  {
    StoredWasAdmitted(RulesOf(c), w.node, b, now, putOk, rewriteOk);
  }

  lemma MineStoresAdmitted(c: Config, g: Block, w: World, job: Job, nonce: u64, appendOk: bool)
    requires Sound(c, g, w.node) && w.node.blocks != []
    requires Possible(c, g, w, MineOne(job, nonce, appendOk)) && FitAt(c, w, MineOne(job, nonce, appendOk))
    ensures StoresAdmitted(c, w.node.store, MineStep(c, w, job, nonce, appendOk).node.store)
  {
    if MineAt(c, w, job, nonce, appendOk).block.Ok? {
      MinedIsAdmittedToo(c, g, w, MineOne(job, nonce, appendOk));
    } else {
      FailedKeepsDisk(c, w, job, nonce, appendOk);
    }
  }

  lemma NextAdmitted(c: Config, g: Block, events: seq<Event>, trace: seq<World>, i: nat, k: nat)
    requires IsRun(c, g, events, trace) && k < i < |trace| && AllFit(c, events, trace, i)
    requires AllAdmitted(c, g, trace[k].node.store)
    ensures AllAdmitted(c, g, trace[k + 1].node.store)
  {
    FitEarlier(c, events, trace, k, i);
    RunStands(c, g, events, trace, k);
    assert StepAt(c, g, events, trace, k);
    StepKeepsAdmitted(c, g, trace[k], events[k]);
  }

  lemma RunAdmits(c: Config, g: Block, events: seq<Event>, trace: seq<World>, i: nat)
    requires IsRun(c, g, events, trace) && i < |trace| && AllFit(c, events, trace, i)
    ensures AllAdmitted(c, g, trace[i].node.store)
  {
    for k := 0 to i
      invariant AllAdmitted(c, g, trace[k].node.store)
    {
      NextAdmitted(c, g, events, trace, i, k);
    }
  }

  /** Every block stored at any point of a run, on the chain or off it, proves its work; but for genesis it is of its
      height's version, for this chain in every transaction, within the size limit, opens with the coinbase that is due
      and holds signed transfers only. */
  lemma RunStoresBlocks(c: Config, g: Block, events: seq<Event>, trace: seq<World>, i: nat, h: Bytes)
    requires IsRun(c, g, events, trace) && i < |trace| && AllFit(c, events, trace, i) && h in trace[i].node.store
    ensures var b := trace[i].node.store[h];
            && b.hash == h && ProvesWork(c, b)
            && (b != g ==>
                  && b.height > 0 && WellFormed(c, b) && TransfersSigned(c, b)
                  && (forall j :: 0 <= j < |b.txs| ==> b.txs[j].chainId == c.chainId))
  {
    RunStands(c, g, events, trace, i);
    RunAdmits(c, g, events, trace, i);
    StoredBlock(c, g, trace[i].node, h);
  }

  lemma StoredBlock(c: Config, g: Block, s: Node, h: Bytes)
    requires Sound(c, g, s) && h in s.store && (s.store[h] == g || Admission(c, s.store[h]).None?)
    ensures var b := s.store[h];
            && b.hash == h && ProvesWork(c, b)
            && (b != g ==>
                  && b.height > 0 && WellFormed(c, b) && TransfersSigned(c, b)
                  && (forall j :: 0 <= j < |b.txs| ==> b.txs[j].chainId == c.chainId))
  {
    var b := s.store[h];
    assert StoredOk(RulesOf(c), g, s.store, h);
    PathStructure(s.store, h);
    SealedProves(c, b);
    if b != g {
      var path := PathTo(s.store, h, {}).value;
      AdmissionIff(c, b);
      LastBlock(c, path, Unbounded);
      AcceptedBlock(c, Replay(c, path[..|path| - 1], Unbounded).value.state, b);
    }
  }

  lemma SealedProves(c: Config, b: Block)
    requires RulesOf(c).sealed(b) && |b.hash| > 0
    ensures ProvesWork(c, b)
  {
    ValidatePowIff(c, b);
  }

  lemma AcceptedBlock(c: Config, st: State, b: Block)
    requires Admission(c, b).None? && ApplyBlock(c, st, b).error.None?
    ensures WellFormed(c, b) && TransfersSigned(c, b)
    ensures forall j :: 0 <= j < |b.txs| ==> b.txs[j].chainId == c.chainId
  {
    BlockIsSigned(c, st, b);
    forall j | 0 <= j < |b.txs| ensures b.txs[j].chainId == c.chainId { OwnChainOnly(c, st, b, j); }
  }

  // ----- what events do -----

  /** Audits and restarts in a run. An audit within the drift bound and a restart in sync leave the node with its
      accounts replayed; a restart out of sync leaves the best tip for one that is not. */
  lemma AuditsAndRestarts(c: Config, g: Block, events: seq<Event>, trace: seq<World>, i: nat)
    requires IsRun(c, g, events, trace) && i < |events| && AllFit(c, events, trace, i)
    ensures var w, e, v := trace[i], events[i], trace[i + 1];
            && Sound(c, g, w.node)
            && (e.AuditAt? && DriftOk(c.params, w.node.blocks, e.now) ==> v == World(Repaired(c, w.node), w.disk))
            && (e.Restart? && Synced(w) ==> v == World(Repaired(c, w.node), w.disk))
            && (e.Restart? && !Synced(w) && Leads(c, g, w.node) ==> Sound(c, g, v.node) && !Leads(c, g, v.node))
            && Started(c, g, w.disk, true).0.Ok?
  {
    var w, e := trace[i], events[i];
    assert StepAt(c, g, events, trace, i);
    RunStands(c, g, events, trace, i);
    RestartGives(c, g, w);
    if e.AuditAt? { AuditRepairs(c, g, w, e.now); }
    if e.Restart? {
      RestartKeeps(c, g, w);
      if !Synced(w) && Leads(c, g, w.node) { RestartForgets(c, g, w); }
    }
  }

  // ----- what follows -----

  /** A node that follows a tip is determined by the store and the tip, up to its own accounts. */
  lemma TipDetermines(c: Config, g: Block, s: Node, t: Node)
    requires Sound(c, g, s) && Sound(c, g, t) && s.store == t.store
    ensures Repaired(c, s) == Repaired(c, t) <==> s.tip == t.tip
    ensures Leads(c, g, s) && Leads(c, g, t) ==> s.tip == t.tip
  {
    SoundChain(c, g, s);
    SoundChain(c, g, t);
    if s.tip != t.tip && Leads(c, g, s) { BestIsOne(RulesOf(c), g, s.store, s.tip, t.tip); }
  }

  /** Order-independent convergence: of two runs that end with the same stored blocks both nodes are sound or neither
      is; sound, on the best of those blocks, they are the same node, whatever was delivered, whoever mined, in whatever
      order and at whatever times, and whatever the store made of it. Only accounts that a failed mining step left
      behind can differ, and their replay does not. */
  lemma RunsConverge(c: Config, g: Block, events1: seq<Event>, trace1: seq<World>, events2: seq<Event>,
                     trace2: seq<World>)
    requires IsRun(c, g, events1, trace1) && IsRun(c, g, events2, trace2)
    requires Last(trace1).node.store == Last(trace2).node.store
    ensures var s, t := Last(trace1).node, Last(trace2).node;
            && (Sound(c, g, s) <==> Sound(c, g, t))
            && (Sound(c, g, s) ==>
                  && (Repaired(c, s) == Repaired(c, t) <==> s.tip == t.tip)
                  && (Leads(c, g, s) && Leads(c, g, t) ==> s.tip == t.tip)
                  && (s.tip == t.tip && Clean(c, s) && Clean(c, t) ==> s == t))
  {
    var s, t := Last(trace1).node, Last(trace2).node;
    SoundOrTainted(c, g, events1, trace1, |events1|);
    SoundOrTainted(c, g, events2, trace2, |events2|);
    if Sound(c, g, s) { TipDetermines(c, g, s, t); }
  }

  lemma SoundOrTainted(c: Config, g: Block, events: seq<Event>, trace: seq<World>, i: nat)
    requires IsRun(c, g, events, trace) && i < |trace|
    ensures Sound(c, g, trace[i].node) <==> !Tainted(c, g, trace[i].node.store)
  {
    if AllFit(c, events, trace, i) {
      RunStands(c, g, events, trace, i);
    } else {
      UnfitForGood(c, g, events, trace, i);
    }
  }

  /** Fork choice at every point of every run: every stored block has an accepted path from genesis, and none is better
      than the tip and all the tips that restarts gave up. Where none was given up, no block has more total work than
      the tip, none of equal work has a smaller hash, and the tip is a leaf. */
  lemma RunForkChoice(c: Config, g: Block, events: seq<Event>, trace: seq<World>, i: nat, h: Bytes)
    requires IsRun(c, g, events, trace) && i < |trace| && AllFit(c, events, trace, i) && h in trace[i].node.store
    ensures var s, r, lost := trace[i].node, RulesOf(c), Lost(events, trace, i);
            && StoreOk(r, g, s.store) && StoredOk(r, g, s.store, h) && s.tip in s.store
            && s.work == PathWork(s.blocks) == WorkOf(r, g, s.store, s.tip)
            && Topped(r, g, s.store, s.tip, lost, h)
            && (lost == {} ==>
                  && (h != s.tip ==>
                        var work := WorkOf(r, g, s.store, h);
                        work < s.work || (work == s.work && LexLess(s.tip, h)))
                  && IsLeaf(s.store, s.tip))
  {
    var s := Repaired(c, trace[i].node);
    RunStands(c, g, events, trace, i);
    RulesLawful(c);
    ChainOf(c, g, s);
    TipBlock(RulesOf(c), g, s);
    ReplayValue(c, s.blocks, Unbounded);
    assert WorkOf(RulesOf(c), g, s.store, h) >= 0;
    if Lost(events, trace, i) == {} {
      BestIff(RulesOf(c), g, s.store, s.tip, {});
      TipIsUniqueBest(RulesOf(c), g, s, h);
      TipIsLeaf(RulesOf(c), g, s);
    }
  }

  /** Replay and audit at every point of every run: the chain is linked and numbered from genesis and replays, the
      accounts are the replay when tidy, and the audit finds nothing unless a timestamp is ahead of the clock. */
  lemma RunReplaysAndAudits(c: Config, g: Block, events: seq<Event>, trace: seq<World>, i: nat, now: i64)
    requires IsRun(c, g, events, trace) && i < |trace| && AllFit(c, events, trace, i)
    ensures var s := trace[i].node;
            && s.blocks != [] && s.blocks[0] == g && AtHeights(s.blocks)
            && (forall k :: 0 < k < |s.blocks| ==> s.blocks[k].prevHash == s.blocks[k - 1].hash)
            && ApplyBlocks(c, s.blocks).error.None?
            && (Tidy(c, events, trace, i) ==> ApplyBlocks(c, s.blocks) == Applied(s.state, None))
            && AuditResult(c, s.blocks, Unbounded).None?
            && (DriftOk(c.params, s.blocks, now) ==> AuditResult(c, s.blocks, At(now)).None?)
  {
    RunInvariant(c, g, events, trace, i);
    ChainFacts(c, g, Repaired(c, trace[i].node));
    AuditPasses(c, g, Repaired(c, trace[i].node), now);
  }

  lemma RunShape(c: Config, g: Block, s: Node)
    requires FreshGenesis(c, g) && Follows(RulesOf(c), g, s)
    ensures ChainShape(s.blocks) && s.blocks[0] == g && ApplyBlocks(c, s.blocks) == Applied(s.state, None)
  {
    ChainFacts(c, g, s);
    assert s.blocks[|s.blocks| - 1].height == |s.blocks| - 1;
  }

  /** Money at every point of every run: the balances of the chain are minted minus burned plus 2^64 for every net
      wrap, so exactly minted minus burned if and only if the wraps cancel; nothing wraps under `NoWrap`, and then,
      without tail emission, they also stay under the cap. When tidy they are the node's own balances. */
  lemma RunSupply(c: Config, g: Block, events: seq<Event>, trace: seq<World>, i: nat)
    requires IsRun(c, g, events, trace) && i < |trace| && AllFit(c, events, trace, i)
    ensures var s, st := trace[i].node, Accounts(c, trace[i].node);
            && ChainShape(s.blocks)
            && Total(st) == Minted(c, s.blocks) - Burned(c, s.blocks) + TWO64 * NetWraps(c, s.blocks)
            && (Total(st) == Minted(c, s.blocks) - Burned(c, s.blocks) <==> NetWraps(c, s.blocks) == 0)
            && (NoWrap(c, s.blocks) ==> NetWraps(c, s.blocks) == 0)
            && (NoWrap(c, s.blocks) && c.params.policy.tailEmission == 0 ==>
                  Total(st) <= SupplyBound(c.params.policy, g.txs[0].amount))
            && (Tidy(c, events, trace, i) ==> s.state == st)
  {
    var s := Repaired(c, trace[i].node);
    RunInvariant(c, g, events, trace, i);
    RunShape(c, g, s);
    SupplyWithWraps(c, s.blocks);
    if NoWrap(c, s.blocks) {
      SupplyExact(c, s.blocks);
      if c.params.policy.tailEmission == 0 { SupplyCap(c, s.blocks); }
    }
  }

  /** Signatures, nonces, indexes, difficulty and time at every point of every run. */
  lemma RunChainRules(c: Config, g: Block, events: seq<Event>, trace: seq<World>, i: nat)
    requires IsRun(c, g, events, trace) && i < |trace| && AllFit(c, events, trace, i)
    ensures var s := trace[i].node;
            && NoncesCount(c.env, Accounts(c, s), History(s.blocks)) && Sequenced(c, History(s.blocks))
            && (forall k :: 0 <= k < |History(s.blocks)| ==>
                              Signed(c, History(s.blocks)[k].tx, History(s.blocks)[k].height))
            && (Tidy(c, events, trace, i) ==> s.state == Accounts(c, s))
            && s.txIndex == TxIndexOf(c, s.blocks) && s.addressIndex == AddressIndexOf(c, s.blocks)
            && TimesIncrease(s.blocks)
            && (c.params.difficultyEnable ==> forall k :: 0 <= k < |s.blocks| ==> BitsOk(c.params, s.blocks, k))
            && (forall k, a :: 0 <= k < |s.blocks| ==> MovesExplained(c, s.blocks, k, a))
  {
    var s := Repaired(c, trace[i].node);
    RunInvariant(c, g, events, trace, i);
    ChainOf(c, g, s);
    RunShape(c, g, s);
    ChainSequenced(c, s.blocks);
    forall k | 0 <= k < |History(s.blocks)| ensures Signed(c, History(s.blocks)[k].tx, History(s.blocks)[k].height) {
      HistoryIsSigned(c, s.blocks, k);
    }
    AcceptedTimesIncrease(c, s.blocks, Unbounded);
    forall k, a | 0 <= k < |s.blocks| ensures MovesExplained(c, s.blocks, k, a) {
      ChainIsAuthorized(c, s.blocks, k, a);
    }
    if c.params.difficultyEnable {
      forall k | 0 <= k < |s.blocks| ensures BitsOk(c.params, s.blocks, k) {
        ChainDifficulty(c, s.blocks, Unbounded, k);
        if k <= c.params.difficultyWindow { FirstWindowKeepsBits(c, s.blocks, Unbounded, k); }
      }
    }
  }
}
