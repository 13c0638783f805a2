/** Fork choice over a growing tree of blocks: receiving a block, following the best tip, and what
    holds in every state. The rules that judge a block or a path are parameters here; `NodeRules`
    supplies the node's own and proves they are lawful. */
module ForkChoice {
  import opened Words
  import opened Types
  import opened BlockTree
  import opened PathRules
  import opened Indexes
  import Sorting

  /** How blocks and paths are judged, and which indexes a chain has. */
  datatype Rules = Rules(
    admission: Block -> Option<Error>,
    sealed: Block -> bool,
    replay: seq<Block> -> Result<View, Error>,
    replayAt: (seq<Block>, i64) -> Result<View, Error>,
    txIndex: seq<Block> -> TxIndex,
    addressIndex: seq<Block> -> AddressIndex)

  ghost predicate WalkError(e: Error) { e == CycleDetected || e == MissingAncestor }

  /** Admission seals, the wall clock only rejects, every block adds work, and walk errors come from the walk. */
  ghost predicate Lawful(r: Rules) {
    && (forall b :: r.admission(b).None? ==> r.sealed(b) && b.height != 0 && |b.hash| > 0)
    && (forall b :: r.admission(b).Some? ==> !WalkError(r.admission(b).value))
    && (forall path, now :: r.replayAt(path, now).Ok? ==> r.replay(path) == r.replayAt(path, now))
    && (forall path, now :: r.replayAt(path, now).Err? ==> !WalkError(r.replayAt(path, now).error))
    && (forall path, b :: r.sealed(b) && r.replay(path + [b]).Ok? ==>
                            r.replay(path).Ok? && r.replay(path + [b]).value.work > r.replay(path).value.work)
  }

  /** Everything the chain keeps in memory. */
  datatype Node = Node(
    store: Store,
    blocks: seq<Block>,
    state: State,
    tip: Bytes,
    work: nat,
    txIndex: TxIndex,
    addressIndex: AddressIndex)

  /** The fork-choice order: more work, then the smaller hash. */
  predicate Better(work1: nat, hash1: Bytes, work2: nat, hash2: Bytes) {
    work1 > work2 || (work1 == work2 && LexLess(hash1, hash2))
  }

  /** The node that follows the chain `path` in place of its own. */
  function Adopt(r: Rules, store: Store, path: seq<Block>, v: View, tip: Bytes): Node {
    Node(store, path, v.state, tip, v.work, r.txIndex(path), r.addressIndex(path))
  }

  /** The canonical chain that would end at `tip`. */
  function Canonical(r: Rules, store: Store, tip: Bytes, now: i64): Result<(seq<Block>, View), Error> {
    match PathTo(store, tip, {})
    case Err(e) => Err(e)
    case Ok(path) =>
      match r.replayAt(path, now)
      case Err(e) => Err(e)
      case Ok(v) => Ok((path, v))
  }

  datatype AddOutcome = AddOutcome(node: Node, reorged: bool, error: Option<Error>)

  /** The block goes on top of the current tip. */
  predicate Extends(s: Node, b: Block)
    requires s.blocks != []
  {
    b.prevHash == s.tip && b.height == AddU64(s.blocks[|s.blocks| - 1].height, 1)
  }

  /** What becomes of a new block once its path has been judged: rolled back, kept aside, or followed. */
  function Settle(r: Rules, s: Node, b: Block, judged: Result<(seq<Block>, View), Error>, putOk: bool,
                  rewriteOk: bool): AddOutcome
    requires s.blocks != []
  {
    match judged
    case Err(e) => AddOutcome(s, false, Some(e))
    case Ok((path, v)) =>
      var store := s.store[b.hash := b];
      if !putOk then AddOutcome(s, false, Some(StoreFailed))
      else if !Better(v.work, b.hash, s.work, s.tip) then AddOutcome(s.(store := store), false, None)
      else AddOutcome(Adopt(r, store, path, v, b.hash), !Extends(s, b), if rewriteOk then None else Some(StoreFailed))
  }

  /** AddBlock: `putOk` and `rewriteOk` say whether the two store calls succeed. */
  function AddBlock(r: Rules, s: Node, b: Block, now: i64, putOk: bool, rewriteOk: bool): AddOutcome
    requires s.blocks != []
  {
    if r.admission(b).Some? then AddOutcome(s, false, r.admission(b))
    else if b.prevHash !in s.store then AddOutcome(s, false, Some(UnknownParent))
    else if b.hash in s.store then AddOutcome(s, false, Some(DuplicateBlock))
    else Settle(r, s, b, Canonical(r, s.store[b.hash := b], b.hash, now), putOk, rewriteOk)
  }

  /** The same outcome on other accounts: they stay as they are, or are replaced with the chain. */
  ghost predicate SameButAccounts(s: Node, n: Node, m: Node, st: State) {
    if n.tip == s.tip then n.state == s.state && n.blocks == s.blocks && m == n.(state := st) else n == m
  }

  lemma SettleIgnoresAccounts(r: Rules, s: Node, b: Block, judged: Result<(seq<Block>, View), Error>, putOk: bool,
                              rewriteOk: bool, st: State)
    requires s.blocks != [] && b.hash != s.tip
    ensures SameButAccounts(s, Settle(r, s, b, judged, putOk, rewriteOk).node,
                            Settle(r, s.(state := st), b, judged, putOk, rewriteOk).node, st)
  {
  }

  /** Receiving does not look at the accounts. */
  lemma AccountsIgnored(r: Rules, s: Node, b: Block, now: i64, putOk: bool, rewriteOk: bool, st: State)
    requires s.blocks != [] && s.tip in s.store
    ensures SameButAccounts(s, AddBlock(r, s, b, now, putOk, rewriteOk).node,
                            AddBlock(r, s.(state := st), b, now, putOk, rewriteOk).node, st)
  {
    if b.hash !in s.store {
      SettleIgnoresAccounts(r, s, b, Canonical(r, s.store[b.hash := b], b.hash, now), putOk, rewriteOk, st);
    }
  }

  /** Only a better block takes over the tip. */
  lemma FollowedIsBetter(r: Rules, s: Node, b: Block, now: i64, putOk: bool, rewriteOk: bool)
    requires s.blocks != [] && AddBlock(r, s, b, now, putOk, rewriteOk).node.tip != s.tip
    ensures var n := AddBlock(r, s, b, now, putOk, rewriteOk).node;
            n.tip == b.hash && b.hash in n.store && Better(n.work, b.hash, s.work, s.tip)
  {
  }

  // ----- the invariant -----

  /** The first block: no parent, sealed, accepted on its own. */
  ghost predicate GenesisOk(r: Rules, g: Block) {
    g.height == 0 && g.prevHash == [] && |g.hash| > 0 && r.sealed(g) && r.replay([g]).Ok?
  }

  ghost function Genesis(r: Rules, g: Block): Node
    requires GenesisOk(r, g)
  {
    Adopt(r, map[g.hash := g], [g], r.replay([g]).value, g.hash)
  }

  /** A stored block: filed under its own hash, sealed, with an accepted path from genesis. */
  ghost predicate StoredOk(r: Rules, g: Block, store: Store, h: Bytes) {
    && h in store && |h| > 0 && store[h].hash == h && r.sealed(store[h])
    && PathTo(store, h, {}).Ok?
    && PathTo(store, h, {}).value != [] && PathTo(store, h, {}).value[0] == g
    && r.replay(PathTo(store, h, {}).value).Ok?
  }

  ghost predicate StoreOk(r: Rules, g: Block, store: Store) {
    g.hash in store && forall h {:trigger StoredOk(r, g, store, h)} :: h in store ==> StoredOk(r, g, store, h)
  }

  /** Total work of the path to a stored block. */
  ghost function WorkOf(r: Rules, g: Block, store: Store, h: Bytes): nat
    requires StoredOk(r, g, store, h)
  {
    r.replay(PathTo(store, h, {}).value).value.work
  }

  /** `tip` beats every other stored block. */
  ghost predicate IsBest(r: Rules, g: Block, store: Store, tip: Bytes)
    requires StoreOk(r, g, store)
  {
    && tip in store
    && forall h {:trigger WorkOf(r, g, store, h)} :: h in store && h != tip ==>
         Better(WorkOf(r, g, store, tip), tip, WorkOf(r, g, store, h), h)
  }

  /** The store is sound, and everything else is a function of the tip's path. */
  ghost predicate Follows(r: Rules, g: Block, s: Node) {
    && GenesisOk(r, g)
    && StoreOk(r, g, s.store)
    && PathTo(s.store, s.tip, {}) == Ok(s.blocks)
    && r.replay(s.blocks) == Ok(View(s.state, s.work))
    && s.txIndex == r.txIndex(s.blocks) && s.addressIndex == r.addressIndex(s.blocks)
  }

  /** And the tip is the best stored block. */
  ghost predicate Inv(r: Rules, g: Block, s: Node) { Follows(r, g, s) && IsBest(r, g, s.store, s.tip) }

  lemma BetterTransitive(w1: nat, h1: Bytes, w2: nat, h2: Bytes, w3: nat, h3: Bytes)
    requires Better(w1, h1, w2, h2) && Better(w2, h2, w3, h3)
    ensures Better(w1, h1, w3, h3)
  {
    if w1 == w2 == w3 { LexTransitive(h1, h2, h3); }
  }

  /** Of two different blocks exactly one is better. */
  lemma BetterTotal(w1: nat, h1: Bytes, w2: nat, h2: Bytes)
    requires h1 != h2
    ensures Better(w1, h1, w2, h2) <==> !Better(w2, h2, w1, h1)
  {
    LexTotal(h1, h2);
    if LexLess(h1, h2) { LexAsymmetric(h1, h2); }
    if LexLess(h2, h1) { LexAsymmetric(h2, h1); }
  }

  lemma GenesisInv(r: Rules, g: Block)
    requires GenesisOk(r, g)
    ensures Inv(r, g, Genesis(r, g))
  {
    var store: Store := map[g.hash := g];
    assert PathTo(store, g.hash, {}) == Ok([g]);
    assert StoredOk(r, g, store, g.hash);
  }

  /** The latest block of the chain is the stored tip. */
  lemma TipBlock(r: Rules, g: Block, s: Node)
    requires Follows(r, g, s)
    ensures s.tip in s.store && s.blocks != [] && s.blocks[0] == g && s.blocks[|s.blocks| - 1] == s.store[s.tip]
    ensures s.blocks[|s.blocks| - 1].hash == s.tip && |s.tip| > 0
    ensures s.work == WorkOf(r, g, s.store, s.tip)
  {
    PathStructure(s.store, s.tip);
    assert StoredOk(r, g, s.store, s.tip);
  }

  // ----- the store grows -----

  lemma OthersStay(r: Rules, g: Block, store: Store, b: Block)
    requires StoreOk(r, g, store) && b.hash !in store
    ensures forall h :: h in store ==> PathTo(store[b.hash := b], h, {}) == PathTo(store, h, {})
  {
    forall h | h in store ensures PathTo(store[b.hash := b], h, {}) == PathTo(store, h, {}) {
      assert StoredOk(r, g, store, h);
      PathOfOthers(store, b, h);
    }
  }

  /** From a block on a stored parent the walk always reaches genesis. */
  lemma WalkSucceeds(r: Rules, g: Block, store: Store, b: Block)
    requires StoreOk(r, g, store) && b.height != 0 && b.prevHash in store && b.hash !in store
    ensures PathTo(store, b.prevHash, {}).Ok?
    ensures PathTo(store[b.hash := b], b.hash, {}) == Ok(PathTo(store, b.prevHash, {}).value + [b])
  {
    assert StoredOk(r, g, store, b.prevHash);
    PathOfChild(store, b);
  }

  /** A sealed block whose path is accepted joins the store without touching any other path. */
  lemma StoreGrows(r: Rules, g: Block, store: Store, b: Block, path: seq<Block>)
    requires StoreOk(r, g, store) && b.hash !in store && b.prevHash in store && b.height != 0 && |b.hash| > 0
             && r.sealed(b)
    requires PathTo(store[b.hash := b], b.hash, {}) == Ok(path) && r.replay(path).Ok?
    ensures StoreOk(r, g, store[b.hash := b])
    ensures forall h :: h in store ==> WorkOf(r, g, store[b.hash := b], h) == WorkOf(r, g, store, h)
    ensures WorkOf(r, g, store[b.hash := b], b.hash) == r.replay(path).value.work
  {
    var store' := store[b.hash := b];
    assert StoredOk(r, g, store, b.prevHash);
    WalkSucceeds(r, g, store, b);
    OthersStay(r, g, store, b);
    assert StoredOk(r, g, store', b.hash);
    forall h | h in store' ensures StoredOk(r, g, store', h) {
      if h != b.hash { assert StoredOk(r, g, store, h); }
    }
  }

  lemma NewTipIsBest(r: Rules, g: Block, store: Store, tip: Bytes, b: Block)
    requires StoreOk(r, g, store) && StoreOk(r, g, store[b.hash := b]) && b.hash !in store
    requires IsBest(r, g, store, tip)
    requires forall h :: h in store ==> WorkOf(r, g, store[b.hash := b], h) == WorkOf(r, g, store, h)
    ensures var store' := store[b.hash := b];
            var newWork, oldWork := WorkOf(r, g, store', b.hash), WorkOf(r, g, store, tip);
            if Better(newWork, b.hash, oldWork, tip) then IsBest(r, g, store', b.hash) else IsBest(r, g, store', tip)
  {
    var store' := store[b.hash := b];
    var newWork, oldWork := WorkOf(r, g, store', b.hash), WorkOf(r, g, store, tip);
    BetterTotal(newWork, b.hash, oldWork, tip);
    if Better(newWork, b.hash, oldWork, tip) {
      forall h | h in store' && h != b.hash ensures Better(newWork, b.hash, WorkOf(r, g, store', h), h) {
        if h != tip { BetterTransitive(newWork, b.hash, oldWork, tip, WorkOf(r, g, store, h), h); }
      }
    }
  }

  /** What becomes of a node that a block with an accepted path joins: the better of it and the tip is followed. */
  function Joined(r: Rules, s: Node, b: Block, path: seq<Block>, v: View): Node {
    var store := s.store[b.hash := b];
    if Better(v.work, b.hash, s.work, s.tip) then Adopt(r, store, path, v, b.hash) else s.(store := store)
  }

  /** A sealed new block on a stored parent. */
  ghost predicate Joins(r: Rules, s: Node, b: Block, path: seq<Block>, v: View) {
    && b.height != 0 && |b.hash| > 0 && r.sealed(b) && b.prevHash in s.store && b.hash !in s.store
    && PathTo(s.store[b.hash := b], b.hash, {}) == Ok(path) && r.replay(path) == Ok(v)
  }

  lemma JoinKeepsFollows(r: Rules, g: Block, s: Node, b: Block, path: seq<Block>, v: View)
    requires Follows(r, g, s) && Joins(r, s, b, path, v)
    ensures Follows(r, g, Joined(r, s, b, path, v))
    ensures Follows(r, g, Adopt(r, s.store[b.hash := b], path, v, b.hash))
  {
    TipBlock(r, g, s);
    StoreGrows(r, g, s.store, b, path);
    OthersStay(r, g, s.store, b);
  }

  lemma JoinKeepsInv(r: Rules, g: Block, s: Node, b: Block, path: seq<Block>, v: View)
    requires Inv(r, g, s) && Joins(r, s, b, path, v)
    ensures Inv(r, g, Joined(r, s, b, path, v))
  {
    JoinKeepsFollows(r, g, s, b, path, v);
    TipBlock(r, g, s);
    StoreGrows(r, g, s.store, b, path);
    NewTipIsBest(r, g, s.store, s.tip, b);
  }

  /** A sealed block that validly extends the tip joins it. */
  lemma ExtensionJoins(r: Rules, g: Block, s: Node, b: Block, v: View)
    requires Follows(r, g, s)
    requires b.height != 0 && |b.hash| > 0 && r.sealed(b) && b.prevHash == s.tip && b.hash !in s.store
    requires r.replay(s.blocks + [b]) == Ok(v)
    ensures Joins(r, s, b, s.blocks + [b], v)
  {
    TipBlock(r, g, s);
    WalkSucceeds(r, g, s.store, b);
  }

  // ----- receiving blocks -----

  /** Receiving a block that validly extends the tip adopts it without a reorg. */
  lemma ReceiveExtension(r: Rules, g: Block, s: Node, b: Block, v: View, now: i64)
    requires Follows(r, g, s) && s.blocks != [] && Lawful(r)
    requires r.admission(b).None? && Extends(s, b) && b.hash !in s.store
    requires r.replayAt(s.blocks + [b], now) == Ok(v) && v.work > s.work
    ensures AddBlock(r, s, b, now, true, true)
            == AddOutcome(Adopt(r, s.store[b.hash := b], s.blocks + [b], v, b.hash), false, None)
  {
    ExtensionJoins(r, g, s, b, v);
  }

  /** A delivery changes nothing, or a block joins. */
  lemma AddBlockJoins(r: Rules, g: Block, s: Node, b: Block, now: i64, putOk: bool, rewriteOk: bool)
    requires Lawful(r) && Follows(r, g, s) && s.blocks != []
    ensures var n := AddBlock(r, s, b, now, putOk, rewriteOk).node;
            n == s || exists path, v :: Joins(r, s, b, path, v) && n == Joined(r, s, b, path, v)
  {
    if r.admission(b).None? && b.prevHash in s.store && b.hash !in s.store {
      WalkSucceeds(r, g, s.store, b);
      var path := PathTo(s.store[b.hash := b], b.hash, {}).value;
      if r.replayAt(path, now).Ok? { assert Joins(r, s, b, path, r.replayAt(path, now).value); }
    }
  }

  /** What a delivery stores was admitted. */
  lemma StoredWasAdmitted(r: Rules, s: Node, b: Block, now: i64, putOk: bool, rewriteOk: bool)
    requires s.blocks != []
    ensures var store := AddBlock(r, s, b, now, putOk, rewriteOk).node.store;
            store == s.store || (store == s.store[b.hash := b] && r.admission(b).None?)
  {
  }

  lemma AddBlockKeepsFollows(r: Rules, g: Block, s: Node, b: Block, now: i64, putOk: bool, rewriteOk: bool)
    requires Lawful(r) && Follows(r, g, s) && s.blocks != []
    ensures Follows(r, g, AddBlock(r, s, b, now, putOk, rewriteOk).node)
  {
    AddBlockJoins(r, g, s, b, now, putOk, rewriteOk);
    var n := AddBlock(r, s, b, now, putOk, rewriteOk).node;
    if n != s {
      var path, v :| Joins(r, s, b, path, v) && n == Joined(r, s, b, path, v);
      JoinKeepsFollows(r, g, s, b, path, v);
    }
  }

  /** Receiving any block, with any clock and any outcome of the store calls, keeps the invariant. */
  lemma AddBlockKeepsInv(r: Rules, g: Block, s: Node, b: Block, now: i64, putOk: bool, rewriteOk: bool)
    requires Lawful(r) && Inv(r, g, s) && s.blocks != []
    ensures Inv(r, g, AddBlock(r, s, b, now, putOk, rewriteOk).node)
  {
    AddBlockJoins(r, g, s, b, now, putOk, rewriteOk);
    var n := AddBlock(r, s, b, now, putOk, rewriteOk).node;
    if n != s {
      var path, v :| Joins(r, s, b, path, v) && n == Joined(r, s, b, path, v);
      JoinKeepsInv(r, g, s, b, path, v);
    }
  }

  /** Errors of the walk cannot happen, and an error changes nothing unless it is the final rewrite that fails. */
  lemma AddBlockErrors(r: Rules, g: Block, s: Node, b: Block, now: i64, putOk: bool, rewriteOk: bool)
    requires Lawful(r) && Follows(r, g, s) && s.blocks != []
    ensures var out := AddBlock(r, s, b, now, putOk, rewriteOk);
            && (out.error.Some? ==> !WalkError(out.error.value))
            && (out.error.Some? && rewriteOk ==> out.node == s && !out.reorged)
            && (out.error.Some? && out.node != s ==> out.error == Some(StoreFailed) && putOk && out.node.tip == b.hash)
  {
    if r.admission(b).None? && b.prevHash in s.store && b.hash !in s.store {
      WalkSucceeds(r, g, s.store, b);
    }
  }

  /** A block that took over the tip came with its parent's path, replayed and extended. */
  lemma AdoptedChain(r: Rules, g: Block, s: Node, b: Block, now: i64, putOk: bool, rewriteOk: bool)
    requires Lawful(r) && Follows(r, g, s) && s.blocks != [] && b.hash !in s.store
    requires AddBlock(r, s, b, now, putOk, rewriteOk).node.tip == b.hash
    ensures var out := AddBlock(r, s, b, now, putOk, rewriteOk);
            && b.prevHash in s.store && PathTo(s.store, b.prevHash, {}).Ok?
            && out.node.blocks == PathTo(s.store, b.prevHash, {}).value + [b]
            && r.replayAt(out.node.blocks, now).Ok? && out.reorged == !Extends(s, b)
  {
    TipBlock(r, g, s);
    WalkSucceeds(r, g, s.store, b);
  }

  /** Only the tip has the current chain as its path. */
  lemma PathIsTips(r: Rules, g: Block, s: Node, h: Bytes)
    requires Follows(r, g, s) && h in s.store
    ensures PathTo(s.store, h, {}).Ok? && (PathTo(s.store, h, {}).value == s.blocks <==> h == s.tip)
  {
    assert StoredOk(r, g, s.store, h);
    PathStructure(s.store, h);
    TipBlock(r, g, s);
  }

  // ----- fork choice -----

  lemma WorkOfChild(r: Rules, g: Block, store: Store, h: Bytes)
    requires Lawful(r) && StoreOk(r, g, store) && h in store && !IsRoot(store[h])
    ensures store[h].prevHash in store && WorkOf(r, g, store, h) > WorkOf(r, g, store, store[h].prevHash)
  {
    assert StoredOk(r, g, store, h);
    PathStructure(store, h);
    PathStructure(store, store[h].prevHash);
    assert StoredOk(r, g, store, store[h].prevHash);
    var path := PathTo(store, h, {}).value;
    assert path == path[..|path| - 1] + [store[h]];
  }

  /** Only genesis has height zero or no parent. */
  lemma RootIsGenesis(r: Rules, g: Block, store: Store, h: Bytes)
    requires StoreOk(r, g, store) && h in store && IsRoot(store[h])
    ensures store[h] == g && h == g.hash
  {
    assert StoredOk(r, g, store, h);
    PathStructure(store, h);
  }

  /** No stored block builds on the tip. */
  lemma TipHasNoChild(r: Rules, g: Block, s: Node, h: Bytes)
    requires Lawful(r) && Inv(r, g, s) && h in s.store
    ensures s.store[h].prevHash != s.tip
  {
    TipBlock(r, g, s);
    if IsRoot(s.store[h]) {
      RootIsGenesis(r, g, s.store, h);
    } else {
      WorkOfChild(r, g, s.store, h);
    }
  }

  /** The tip is the one best stored block: it beats every other, none beats it, and it is a leaf of the tree. */
  lemma TipIsUniqueBest(r: Rules, g: Block, s: Node, h: Bytes)
    requires Lawful(r) && Inv(r, g, s) && h in s.store
    ensures h != s.tip ==> && Better(s.work, s.tip, WorkOf(r, g, s.store, h), h)
                           && !Better(WorkOf(r, g, s.store, h), h, s.work, s.tip)
    ensures s.work >= WorkOf(r, g, s.store, h)
    ensures s.store[h].prevHash != s.tip
  {
    TipBlock(r, g, s);
    TipHasNoChild(r, g, s, h);
    if h != s.tip { BetterTotal(s.work, s.tip, WorkOf(r, g, s.store, h), h); }
  }

  /** Convergence: the stored blocks alone determine tip, chain, accounts, work and indexes. */
  lemma Convergence(r: Rules, g: Block, s: Node, t: Node)
    requires Inv(r, g, s) && Inv(r, g, t) && s.store == t.store
    ensures s == t
  {
    if s.tip != t.tip {
      BetterTotal(WorkOf(r, g, s.store, s.tip), s.tip, WorkOf(r, g, s.store, t.tip), t.tip);
      assert false;
    }
  }

  // ----- several tips -----

  /** `k` is `h`, or better. */
  ghost predicate NotAbove(r: Rules, g: Block, store: Store, h: Bytes, k: Bytes)
    requires StoreOk(r, g, store) && h in store && k in store
  {
    h == k || Better(WorkOf(r, g, store, k), k, WorkOf(r, g, store, h), h)
  }

  /** The tip, or some other block among `others`, is as good as `h`. */
  ghost predicate Topped(r: Rules, g: Block, store: Store, tip: Bytes, others: set<Bytes>, h: Bytes)
    requires StoreOk(r, g, store) && h in store && tip in store
  {
    || NotAbove(r, g, store, h, tip)
    || exists k :: k in others && k in store && NotAbove(r, g, store, h, k)
  }

  /** So it is for every stored block. */
  ghost predicate Tops(r: Rules, g: Block, store: Store, tip: Bytes, others: set<Bytes>)
    requires StoreOk(r, g, store)
  {
    tip in store && forall h {:trigger WorkOf(r, g, store, h)} :: h in store ==> Topped(r, g, store, tip, others, h)
  }

  lemma NotAboveTransitive(r: Rules, g: Block, store: Store, h: Bytes, k: Bytes, m: Bytes)
    requires StoreOk(r, g, store) && h in store && k in store && m in store
    requires NotAbove(r, g, store, h, k) && NotAbove(r, g, store, k, m)
    ensures NotAbove(r, g, store, h, m)
  {
    if h != k && k != m {
      BetterTransitive(WorkOf(r, g, store, m), m, WorkOf(r, g, store, k), k, WorkOf(r, g, store, h), h);
    }
  }

  /** Where the tip and some other blocks top everything, the tip is best if and only if it tops the others. */
  lemma BestIff(r: Rules, g: Block, store: Store, tip: Bytes, others: set<Bytes>)
    requires StoreOk(r, g, store) && Tops(r, g, store, tip, others)
    ensures IsBest(r, g, store, tip) <==> forall l :: l in others && l in store ==> NotAbove(r, g, store, l, tip)
  {
    if forall l :: l in others && l in store ==> NotAbove(r, g, store, l, tip) {
      forall h | h in store ensures NotAbove(r, g, store, h, tip) { BelowTip(r, g, store, tip, others, h); }
    }
  }

  lemma BelowTip(r: Rules, g: Block, store: Store, tip: Bytes, others: set<Bytes>, h: Bytes)
    requires StoreOk(r, g, store) && h in store && Tops(r, g, store, tip, others)
    requires forall l :: l in others && l in store ==> NotAbove(r, g, store, l, tip)
    ensures NotAbove(r, g, store, h, tip)
  {
    var work := WorkOf(r, g, store, h);
    if !NotAbove(r, g, store, h, tip) {
      var k :| k in others && k in store && NotAbove(r, g, store, h, k);
      NotAboveTransitive(r, g, store, h, k, tip);
    }
  }

  /** The store has grown, and the old works stay. */
  ghost predicate SameWorks(r: Rules, g: Block, store: Store, bigger: Store)
    requires StoreOk(r, g, store) && StoreOk(r, g, bigger)
  {
    && (forall k :: k in store ==> k in bigger)
    && (forall k {:trigger WorkOf(r, g, store, k)} {:trigger WorkOf(r, g, bigger, k)} ::
          k in store ==> WorkOf(r, g, bigger, k) == WorkOf(r, g, store, k))
  }

  lemma JoinedTip(r: Rules, g: Block, s: Node, b: Block, path: seq<Block>, v: View)
    requires Follows(r, g, s) && Joins(r, s, b, path, v)
    ensures var n := Joined(r, s, b, path, v);
            && StoreOk(r, g, n.store) && n.tip in n.store && s.tip in s.store && SameWorks(r, g, s.store, n.store)
            && s.tip in n.store && b.hash in n.store
            && NotAbove(r, g, n.store, s.tip, n.tip) && NotAbove(r, g, n.store, b.hash, n.tip)
  {
    TipBlock(r, g, s);
    StoreGrows(r, g, s.store, b, path);
    BetterTotal(v.work, b.hash, s.work, s.tip);
  }

  /** A block that joins takes the place of the tip, or stays below it. */
  lemma JoinKeepsTops(r: Rules, g: Block, s: Node, b: Block, path: seq<Block>, v: View, others: set<Bytes>)
    requires Follows(r, g, s) && Joins(r, s, b, path, v) && Tops(r, g, s.store, s.tip, others)
    ensures var n := Joined(r, s, b, path, v);
            StoreOk(r, g, n.store) && Tops(r, g, n.store, n.tip, others)
  {
    var n := Joined(r, s, b, path, v);
    JoinedTip(r, g, s, b, path, v);
    forall h | h in n.store ensures Topped(r, g, n.store, n.tip, others, h) {
      if h != b.hash { ToppedLater(r, g, s.store, n.store, s.tip, n.tip, others, h); }
    }
  }

  lemma ToppedLater(r: Rules, g: Block, store: Store, bigger: Store, tip: Bytes, next: Bytes, others: set<Bytes>,
                    h: Bytes)
    requires StoreOk(r, g, store) && StoreOk(r, g, bigger) && SameWorks(r, g, store, bigger)
    requires h in store && tip in bigger && next in bigger && NotAbove(r, g, bigger, tip, next)
    requires Tops(r, g, store, tip, others)
    ensures h in bigger && Topped(r, g, bigger, next, others, h)
  {
    assert WorkOf(r, g, store, h) == WorkOf(r, g, bigger, h);
    assert Topped(r, g, store, tip, others, h);
    if NotAbove(r, g, store, h, tip) {
      assert WorkOf(r, g, store, tip) == WorkOf(r, g, bigger, tip);
      NotAboveTransitive(r, g, bigger, h, tip, next);
    } else {
      var k :| k in others && k in store && NotAbove(r, g, store, h, k);
      assert WorkOf(r, g, store, k) == WorkOf(r, g, bigger, k);
      assert NotAbove(r, g, bigger, h, k);
    }
  }

  lemma AddBlockKeepsTops(r: Rules, g: Block, s: Node, b: Block, now: i64, putOk: bool, rewriteOk: bool,
                          others: set<Bytes>)
    requires Lawful(r) && Follows(r, g, s) && s.blocks != [] && Tops(r, g, s.store, s.tip, others)
    ensures var n := AddBlock(r, s, b, now, putOk, rewriteOk).node;
            StoreOk(r, g, n.store) && Tops(r, g, n.store, n.tip, others)
  {
    AddBlockJoins(r, g, s, b, now, putOk, rewriteOk);
    var n := AddBlock(r, s, b, now, putOk, rewriteOk).node;
    if n != s {
      var path, v :| Joins(r, s, b, path, v) && n == Joined(r, s, b, path, v);
      JoinKeepsTops(r, g, s, b, path, v, others);
    }
  }

  // ----- KnownTips -----

  ghost predicate IsLeaf(store: Store, h: Bytes) {
    h in store && forall k :: k in store ==> |store[k].prevHash| == 0 || store[k].prevHash != h
  }

  predicate HashBefore(x: Bytes, y: Bytes) { LexLess(x, y) }

  lemma NotBeforeTransitive(x: Bytes, y: Bytes, z: Bytes)
    requires !LexLess(x, y) && !LexLess(y, z)
    ensures !LexLess(x, z)
  {
    if x != y {
      LexTotal(x, y);
      if LexLess(x, z) { LexTransitive(y, x, z); }
    }
  }

  lemma HashOrder()
    ensures Sorting.StrictWeak(HashBefore)
  {
    forall x: Bytes, y: Bytes | HashBefore(x, y) ensures !HashBefore(y, x) { LexAsymmetric(x, y); }
    forall x: Bytes, y: Bytes, z: Bytes | !HashBefore(x, y) && !HashBefore(y, z) ensures !HashBefore(x, z) {
      NotBeforeTransitive(x, y, z);
    }
  }

  /** The hashes no stored block names as its parent, in order. Map iteration order is left open. */
  method KnownTips(store: Store) returns (tips: seq<Bytes>)
    ensures forall h :: h in tips <==> IsLeaf(store, h)
    ensures Sorting.Strict(HashBefore, tips)
  {
    var isParent: set<Bytes> := {};
    var todo := store.Keys;
    while todo != {}
      invariant todo <= store.Keys
      invariant forall p ::
                  p in isParent
                  <==> exists k :: k in store && k !in todo && |store[k].prevHash| > 0 && store[k].prevHash == p
      decreases todo
    {
      var k :| k in todo;
      todo := todo - {k};
      if |store[k].prevHash| > 0 { isParent := isParent + {store[k].prevHash}; }
    }
    tips := [];
    todo := store.Keys;
    while todo != {}
      invariant todo <= store.Keys && Sorting.Strict(HashBefore, tips)
      invariant forall h :: h in tips <==> h in store && h !in todo && h !in isParent
      decreases todo
    {
      var h :| h in todo;
      todo := todo - {h};
      if h !in isParent {
        HashOrder();
        forall k | k in tips ensures HashBefore(h, k) || HashBefore(k, h) { LexTotal(h, k); }
        Sorting.InsertKeepsStrict(HashBefore, h, tips);
        Sorting.InsertMembers(HashBefore, h, tips);
        tips := Sorting.Insert(HashBefore, h, tips);
      }
    }
  }

  /** The followed tip is always one of the leaves KnownTips reports. */
  lemma TipIsLeaf(r: Rules, g: Block, s: Node)
    requires Lawful(r) && Inv(r, g, s)
    ensures IsLeaf(s.store, s.tip)
  {
    TipBlock(r, g, s);
    forall k | k in s.store ensures s.store[k].prevHash != s.tip { TipHasNoChild(r, g, s, k); }
  }
}
