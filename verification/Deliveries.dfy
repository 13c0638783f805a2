/** Delivering the same blocks, parents first, in any order: exactly when every node ends in the same state. */
module Deliveries {
  import opened Words
  import opened Types
  import opened PathRules
  import opened BlockTree
  import opened ForkChoice
  import opened NodeRules

  // ----- blocks that can be stored -----

  /** Blocks among `all` from genesis on, each on the one before, no hash twice. */
  ghost predicate Linked(g: Block, all: set<Block>, path: seq<Block>) {
    && path != [] && path[0] == g
    && (forall i :: 0 < i < |path| ==> path[i] in all && path[i].prevHash == path[i - 1].hash)
    && (forall i, j :: 0 <= i < j < |path| ==> path[i].hash != path[j].hash)
  }

  /** A linked path that the rules accept, every later block admitted. */
  ghost predicate GoodPath(r: Rules, g: Block, all: set<Block>, path: seq<Block>) {
    && Linked(g, all, path) && r.replay(path).Ok?
    && forall i :: 0 < i < |path| ==> r.admission(path[i]).None?
  }

  ghost predicate PathOf(r: Rules, g: Block, all: set<Block>, path: seq<Block>, b: Block) {
    GoodPath(r, g, all, path) && path[|path| - 1] == b
  }

  /** Among `all` there is a good path to the block. It depends on no order of arrival. */
  ghost predicate Good(r: Rules, g: Block, all: set<Block>, b: Block) {
    exists path :: PathOf(r, g, all, path, b)
  }

  /** The blocks a node will have stored once it has seen them all. */
  ghost function Settled(r: Rules, g: Block, all: set<Block>): set<Block> {
    set b | b in all && Good(r, g, all, b)
  }

  /** No two good blocks among `some` have the same hash. */
  ghost predicate NoTwins(r: Rules, g: Block, all: set<Block>, some: set<Block>) {
    forall a, b :: a in some && b in some && Good(r, g, all, a) && Good(r, g, all, b) && a.hash == b.hash ==> a == b
  }

  /** The clock rejects no good path. */
  ghost predicate Timely(r: Rules, g: Block, all: set<Block>, now: i64) {
    forall path :: GoodPath(r, g, all, path) ==> r.replayAt(path, now).Ok?
  }

  lemma {:induction false} GoodPrefix(r: Rules, g: Block, all: set<Block>, path: seq<Block>, n: nat)
    requires Lawful(r) && GoodPath(r, g, all, path) && 0 < n <= |path|
    ensures GoodPath(r, g, all, path[..n])
    decreases |path|
  {
    if n == |path| {
      assert path[..n] == path;
    } else {
      var init, b := path[..|path| - 1], path[|path| - 1];
      assert path == init + [b];
      assert r.sealed(b);
      GoodPrefix(r, g, all, init, n);
      assert init[..n] == path[..n];
    }
  }

  lemma GoodChild(r: Rules, g: Block, all: set<Block>, parents: seq<Block>, b: Block)
    requires GoodPath(r, g, all, parents) && b in all && r.admission(b).None? && r.replay(parents + [b]).Ok?
    requires b.prevHash == parents[|parents| - 1].hash
    requires forall i :: 0 <= i < |parents| ==> parents[i].hash != b.hash
    ensures PathOf(r, g, all, parents + [b], b)
  {
  }

  /** Another block in the place of the last. */
  lemma GoodSibling(r: Rules, g: Block, all: set<Block>, parents: seq<Block>, b: Block, d: Block)
    requires Lawful(r) && parents != [] && PathOf(r, g, all, parents + [b], b)
    requires d in all && d.hash == b.hash && d.prevHash == b.prevHash && r.admission(d).None?
    requires r.replay(parents + [d]).Ok?
    ensures PathOf(r, g, all, parents + [d], d)
  {
    var path := parents + [b];
    GoodPrefix(r, g, all, path, |parents|);
    assert path[..|parents|] == parents;
    assert path[|parents|].prevHash == path[|parents| - 1].hash;
    forall i | 0 <= i < |parents| ensures parents[i].hash != d.hash { assert path[i].hash != path[|parents|].hash; }
    GoodChild(r, g, all, parents, d);
  }

  /** The genesis hash belongs to genesis alone. */
  lemma GenesisHash(r: Rules, g: Block, all: set<Block>, b: Block)
    requires Good(r, g, all, b) && b.hash == g.hash
    ensures b == g
  {
    var path: seq<Block> :| PathOf(r, g, all, path, b);
    if |path| > 1 { assert false; }
  }

  // ----- paths in a store -----

  ghost predicate FiledTo(store: Store, path: seq<Block>, n: nat)
    requires n <= |path|
  {
    forall i :: 0 <= i < n ==> path[i].hash in store && store[path[i].hash] == path[i]
  }

  /** The walk from block `i` of the path leads to the one before it, or ends there. */
  predicate StepsBack(path: seq<Block>, i: nat)
    requires i < |path|
  {
    if i == 0 then IsRoot(path[0]) else !IsRoot(path[i]) && path[i].prevHash == path[i - 1].hash
  }

  lemma GoodStepsBack(r: Rules, g: Block, all: set<Block>, path: seq<Block>, i: nat)
    requires Lawful(r) && GenesisOk(r, g) && GoodPath(r, g, all, path) && i < |path|
    ensures StepsBack(path, i)
  {
    if i > 0 {
      assert r.admission(path[i]).None?;
      assert |path[i - 1].hash| > 0 by { if i > 1 { assert r.admission(path[i - 1]).None?; } }
    }
  }

  lemma {:induction false} WalkFinds(store: Store, path: seq<Block>, n: nat, seen: set<Bytes>)
    requires n < |path| && FiledTo(store, path, n + 1)
    requires forall i :: 0 <= i <= n ==> StepsBack(path, i)
    requires forall i, j :: 0 <= i < j <= n ==> path[i].hash != path[j].hash
    requires forall i :: 0 <= i <= n ==> path[i].hash !in seen
    ensures PathTo(store, path[n].hash, seen) == Ok(path[..n + 1])
    decreases n
  {
    assert StepsBack(path, n) && store[path[n].hash] == path[n];
    if n == 0 {
      assert path[..1] == [path[0]];
    } else {
      WalkFinds(store, path, n - 1, seen + {path[n].hash});
      assert path[..n + 1] == path[..n] + [path[n]];
    }
  }

  /** In a store that holds the blocks of a good path the walk finds that path. */
  lemma GoodPathIsFound(r: Rules, g: Block, all: set<Block>, store: Store, path: seq<Block>)
    requires Lawful(r) && GenesisOk(r, g) && GoodPath(r, g, all, path) && FiledTo(store, path, |path|)
    ensures PathTo(store, path[|path| - 1].hash, {}) == Ok(path)
  {
    forall i | 0 <= i < |path| ensures StepsBack(path, i) { GoodStepsBack(r, g, all, path, i); }
    WalkFinds(store, path, |path| - 1, {});
    assert path[..|path|] == path;
  }

  /** Every stored block is on a good path, the one the store shows. */
  ghost predicate Within(r: Rules, g: Block, all: set<Block>, store: Store) {
    forall h :: h in store ==> PathTo(store, h, {}).Ok? && GoodPath(r, g, all, PathTo(store, h, {}).value)
  }

  lemma StoredIsGood(r: Rules, g: Block, all: set<Block>, store: Store, h: Bytes)
    requires Within(r, g, all, store) && h in store
    ensures PathOf(r, g, all, PathTo(store, h, {}).value, store[h]) && Good(r, g, all, store[h])
  {
    PathStructure(store, h);
    assert PathOf(r, g, all, PathTo(store, h, {}).value, store[h]);
  }

  /** The blocks on a stored path are filed under their own hashes. */
  lemma PathIsFiled(r: Rules, g: Block, store: Store, h: Bytes, i: nat)
    requires StoreOk(r, g, store) && h in store && PathTo(store, h, {}).Ok? && i < |PathTo(store, h, {}).value|
    ensures PathTo(store, h, {}).value[i].hash in store
  {
    PathIsStored(store, h, {}, i);
    var k :| k in store && store[k] == PathTo(store, h, {}).value[i];
    assert StoredOk(r, g, store, k);
  }

  // ----- one delivery -----

  /** A new block on a stored parent: its path is its parent's and itself, and it is good if that replays. */
  lemma NewIsGood(r: Rules, g: Block, all: set<Block>, s: Node, b: Block)
    requires Lawful(r) && Inv(r, g, s) && Within(r, g, all, s.store) && b in all
    requires r.admission(b).None? && b.prevHash in s.store && b.hash !in s.store
    ensures PathTo(s.store, b.prevHash, {}).Ok?
    ensures var path := PathTo(s.store, b.prevHash, {}).value + [b];
            && PathTo(s.store[b.hash := b], b.hash, {}) == Ok(path)
            && (r.replay(path).Ok? ==> PathOf(r, g, all, path, b))
  {
    WalkSucceeds(r, g, s.store, b);
    var parents := PathTo(s.store, b.prevHash, {}).value;
    StoredIsGood(r, g, all, s.store, b.prevHash);
    assert StoredOk(r, g, s.store, b.prevHash);
    forall i | 0 <= i < |parents| ensures parents[i].hash != b.hash { PathIsFiled(r, g, s.store, b.prevHash, i); }
    if r.replay(parents + [b]).Ok? { GoodChild(r, g, all, parents, b); }
  }

  lemma AddedStore(r: Rules, s: Node, b: Block, now: i64, rewriteOk: bool)
    requires s.blocks != []
    ensures var isNew := r.admission(b).None? && b.prevHash in s.store && b.hash !in s.store;
            AddBlock(r, s, b, now, true, rewriteOk).node.store
            == if isNew && Canonical(r, s.store[b.hash := b], b.hash, now).Ok? then s.store[b.hash := b] else s.store
  {
  }

  /** Whatever is delivered, only good blocks are stored. */
  lemma AddedIsWithin(r: Rules, g: Block, all: set<Block>, s: Node, b: Block, now: i64, rewriteOk: bool)
    requires Lawful(r) && Inv(r, g, s) && s.blocks != [] && Within(r, g, all, s.store) && b in all
    ensures var store := AddBlock(r, s, b, now, true, rewriteOk).node.store;
            && Within(r, g, all, store)
            && (store == s.store || (store == s.store[b.hash := b] && b.hash !in s.store && Good(r, g, all, b)))
  {
    AddedStore(r, s, b, now, rewriteOk);
    if r.admission(b).None? && b.prevHash in s.store && b.hash !in s.store {
      NewIsGood(r, g, all, s, b);
      OthersStay(r, g, s.store, b);
    }
  }

  /** The blocks that have arrived bring every block under their parents' hashes with them. */
  ghost predicate Closed(g: Block, all: set<Block>, seen: set<Block>) {
    && g in seen
    && forall b, p :: b in seen && b != g && p in all && p.hash == b.prevHash ==> p in seen
  }

  /** The good blocks among those that arrived are stored. */
  ghost predicate Caught(r: Rules, g: Block, all: set<Block>, seen: set<Block>, store: Store) {
    && (forall h :: h in store ==> store[h] in seen)
    && forall b :: b in seen && Good(r, g, all, b) ==> b.hash in store && store[b.hash] == b
  }

  lemma {:induction false} PathArrived(r: Rules, g: Block, all: set<Block>, seen: set<Block>, path: seq<Block>, i: nat)
    requires g in all && Closed(g, all, seen) && GoodPath(r, g, all, path) && path[|path| - 1] in seen && i < |path|
    ensures path[i] in seen
    decreases |path| - i
  {
    if i < |path| - 1 {
      PathArrived(r, g, all, seen, path, i + 1);
      assert path[0].hash != path[i + 1].hash;
      assert path[i + 1].prevHash == path[i].hash;
    }
  }

  /** The path of a good block whose parents have arrived is the one the store shows. */
  lemma GoodPathIsStored(r: Rules, g: Block, all: set<Block>, seen: set<Block>, store: Store, path: seq<Block>)
    requires Lawful(r) && GenesisOk(r, g) && g in all && Closed(g, all, seen) && Caught(r, g, all, seen, store)
    requires GoodPath(r, g, all, path) && path[|path| - 1] in seen
    ensures PathTo(store, path[|path| - 1].hash, {}) == Ok(path)
  {
    var n := |path| - 1;
    forall i | 0 <= i <= n ensures path[i].hash in store && store[path[i].hash] == path[i] {
      PathArrived(r, g, all, seen, path, i);
      GoodPrefix(r, g, all, path, i + 1);
      assert PathOf(r, g, all, path[..i + 1], path[i]);
    }
    GoodPathIsFound(r, g, all, store, path);
  }

  lemma GoodIsAdded(r: Rules, g: Block, all: set<Block>, s: Node, seen: set<Block>, b: Block, now: i64, rewriteOk: bool)
    requires Lawful(r) && Inv(r, g, s) && s.blocks != [] && g in all && b in all && Timely(r, g, all, now)
    requires Closed(g, all, seen) && Caught(r, g, all, seen, s.store) && b.hash !in s.store && Good(r, g, all, b)
    requires forall p :: p in all && p.hash == b.prevHash ==> p in seen
    ensures AddBlock(r, s, b, now, true, rewriteOk).node.store == s.store[b.hash := b]
  {
    var path: seq<Block> :| PathOf(r, g, all, path, b);
    var n := |path| - 1;
    assert n > 0;
    var parents := path[..n];
    GoodPrefix(r, g, all, path, n);
    assert path[n].prevHash == path[n - 1].hash;
    assert path[n - 1] in seen by { if n > 1 { assert path[n - 1] in all; } }
    GoodPathIsStored(r, g, all, seen, s.store, parents);
    assert b.prevHash in s.store by { PathStructure(s.store, b.prevHash); }
    WalkSucceeds(r, g, s.store, b);
    assert parents + [b] == path;
    AddedStore(r, s, b, now, rewriteOk);
  }

  /** One delivery stores the block exactly when it is good, unless a twin came first. */
  lemma DeliverOne(r: Rules, g: Block, all: set<Block>, s: Node, seen: set<Block>, b: Block, now: i64, rewriteOk: bool)
    requires Lawful(r) && Inv(r, g, s) && s.blocks != [] && g in all && b in all && Timely(r, g, all, now)
    requires Within(r, g, all, s.store) && Closed(g, all, seen) && Caught(r, g, all, seen, s.store)
    requires forall p :: p in all && p.hash == b.prevHash ==> p in seen
    requires NoTwins(r, g, all, seen + {b})
    ensures AddBlock(r, s, b, now, true, rewriteOk).node.store
            == if Good(r, g, all, b) then s.store[b.hash := b] else s.store
  {
    if !Good(r, g, all, b) {
      AddedIsWithin(r, g, all, s, b, now, rewriteOk);
    } else if b.hash in s.store {
      StoredIsGood(r, g, all, s.store, b.hash);
      assert StoredOk(r, g, s.store, b.hash);
      assert s.store[b.hash] == b;
      AddedStore(r, s, b, now, rewriteOk);
    } else {
      GoodIsAdded(r, g, all, s, seen, b, now, rewriteOk);
    }
  }

  // ----- whole schedules -----

  datatype Delivery = Delivery(b: Block, now: i64, rewriteOk: bool)

  /** The node after a sequence of deliveries, each with a store that takes the block. */
  function Deliver(r: Rules, s: Node, ds: seq<Delivery>): Node {
    if ds == [] then s
    else
      var d := ds[|ds| - 1];
      var before := Deliver(r, s, ds[..|ds| - 1]);
      if before.blocks == [] then before else AddBlock(r, before, d.b, d.now, true, d.rewriteOk).node
  }

  /** The blocks seen so far, genesis included. */
  ghost function Arrived(g: Block, ds: seq<Delivery>): set<Block> {
    if ds == [] then {g} else Arrived(g, ds[..|ds| - 1]) + {ds[|ds| - 1].b}
  }

  /** The delivery may come next: a block of `all`, after every block under its parent's hash, at a clock that rejects
      no good path. */
  ghost predicate MayCome(r: Rules, g: Block, all: set<Block>, seen: set<Block>, d: Delivery) {
    && d.b in all && Timely(r, g, all, d.now)
    && forall p :: p in all && p.hash == d.b.prevHash ==> p in seen
  }

  ghost predicate InOrder(r: Rules, g: Block, all: set<Block>, ds: seq<Delivery>) {
    ds != [] ==>
      && InOrder(r, g, all, ds[..|ds| - 1])
      && MayCome(r, g, all, Arrived(g, ds[..|ds| - 1]), ds[|ds| - 1])
  }

  /** All the blocks, parents first. */
  ghost predicate Complete(r: Rules, g: Block, all: set<Block>, ds: seq<Delivery>) {
    InOrder(r, g, all, ds) && Arrived(g, ds) == all
  }

  /** What holds after deliveries without twins. */
  ghost predicate CaughtUp(r: Rules, g: Block, all: set<Block>, seen: set<Block>, s: Node) {
    Inv(r, g, s) && Within(r, g, all, s.store) && Closed(g, all, seen) && Caught(r, g, all, seen, s.store)
  }

  lemma GenesisIsCaughtUp(r: Rules, g: Block, all: set<Block>)
    requires GenesisOk(r, g) && g in all
    ensures CaughtUp(r, g, all, {g}, Genesis(r, g)) && Good(r, g, all, g)
  {
    GenesisInv(r, g);
    assert PathTo(Genesis(r, g).store, g.hash, {}) == Ok([g]);
    assert PathOf(r, g, all, [g], g);
  }

  lemma DeliverNext(r: Rules, g: Block, all: set<Block>, s: Node, seen: set<Block>, d: Delivery)
    requires Lawful(r) && g in all && CaughtUp(r, g, all, seen, s) && MayCome(r, g, all, seen, d)
    requires NoTwins(r, g, all, seen + {d.b})
    ensures s.blocks != [] && CaughtUp(r, g, all, seen + {d.b}, AddBlock(r, s, d.b, d.now, true, d.rewriteOk).node)
  {
    TipBlock(r, g, s);
    AddBlockKeepsInv(r, g, s, d.b, d.now, true, d.rewriteOk);
    AddedIsWithin(r, g, all, s, d.b, d.now, d.rewriteOk);
    CaughtNext(r, g, all, seen, s.store, d.b);
    ClosedNext(r, g, all, seen, d);
    DeliverOne(r, g, all, s, seen, d.b, d.now, d.rewriteOk);
  }

  lemma ClosedNext(r: Rules, g: Block, all: set<Block>, seen: set<Block>, d: Delivery)
    requires Closed(g, all, seen) && MayCome(r, g, all, seen, d)
    ensures Closed(g, all, seen + {d.b})
  {
  }

  lemma CaughtNext(r: Rules, g: Block, all: set<Block>, seen: set<Block>, store: Store, b: Block)
    requires Within(r, g, all, store) && Caught(r, g, all, seen, store) && NoTwins(r, g, all, seen + {b})
    ensures Caught(r, g, all, seen + {b}, if Good(r, g, all, b) then store[b.hash := b] else store)
  {
  }

  lemma {:induction false} DeliverAll(r: Rules, g: Block, all: set<Block>, ds: seq<Delivery>)
    requires Lawful(r) && GenesisOk(r, g) && g in all && InOrder(r, g, all, ds) && NoTwins(r, g, all, Arrived(g, ds))
    ensures CaughtUp(r, g, all, Arrived(g, ds), Deliver(r, Genesis(r, g), ds))
  {
    if ds == [] {
      GenesisIsCaughtUp(r, g, all);
    } else {
      var d, init := ds[|ds| - 1], ds[..|ds| - 1];
      DeliverAll(r, g, all, init);
      DeliverNext(r, g, all, Deliver(r, Genesis(r, g), init), Arrived(g, init), d);
    }
  }

  lemma SameValues(r: Rules, g: Block, s: Store, t: Store)
    requires StoreOk(r, g, s) && StoreOk(r, g, t) && s.Values == t.Values
    ensures s == t
  {
    forall h | h in s ensures h in t && t[h] == s[h] { SameValue(r, g, s, t, h); }
    forall h | h in t ensures h in s && s[h] == t[h] { SameValue(r, g, t, s, h); }
  }

  lemma SameValue(r: Rules, g: Block, s: Store, t: Store, h: Bytes)
    requires StoreOk(r, g, s) && StoreOk(r, g, t) && s.Values <= t.Values && h in s
    ensures h in t && t[h] == s[h]
  {
    assert StoredOk(r, g, s, h);
    assert s[h] in t.Values;
    var k :| k in t && t[k] == s[h];
    assert StoredOk(r, g, t, k);
  }

  /** Whatever the order, the node ends with exactly the good blocks, if no two of them share a hash. */
  lemma DeliveriesSettle(r: Rules, g: Block, all: set<Block>, ds: seq<Delivery>)
    requires Lawful(r) && GenesisOk(r, g) && g in all && Complete(r, g, all, ds) && NoTwins(r, g, all, all)
    ensures Inv(r, g, Deliver(r, Genesis(r, g), ds)) && Deliver(r, Genesis(r, g), ds).store.Values == Settled(r, g, all)
  {
    DeliverAll(r, g, all, ds);
    var store := Deliver(r, Genesis(r, g), ds).store;
    forall b | b in store.Values ensures b in Settled(r, g, all) {
      var h :| h in store && store[h] == b;
      StoredIsGood(r, g, all, store, h);
    }
    forall b | b in Settled(r, g, all) ensures b in store.Values { assert store[b.hash] == b; }
  }

  /** Then two orders lead to the same node. */
  lemma DeliveriesConverge(r: Rules, g: Block, all: set<Block>, ds1: seq<Delivery>, ds2: seq<Delivery>)
    requires Lawful(r) && GenesisOk(r, g) && g in all && NoTwins(r, g, all, all)
    requires Complete(r, g, all, ds1) && Complete(r, g, all, ds2)
    ensures Deliver(r, Genesis(r, g), ds1) == Deliver(r, Genesis(r, g), ds2)
  {
    DeliveriesSettle(r, g, all, ds1);
    DeliveriesSettle(r, g, all, ds2);
    var s, t := Deliver(r, Genesis(r, g), ds1), Deliver(r, Genesis(r, g), ds2);
    SameValues(r, g, s.store, t.store);
    Convergence(r, g, s, t);
  }

  // ----- twins -----

  /** What is stored stays. */
  lemma {:induction false} StoredStays(r: Rules, s: Node, ds: seq<Delivery>, more: seq<Delivery>, h: Bytes)
    requires h in Deliver(r, s, ds).store
    ensures h in Deliver(r, s, ds + more).store && Deliver(r, s, ds + more).store[h] == Deliver(r, s, ds).store[h]
    decreases |more|
  {
    if more == [] {
      assert ds + more == ds;
    } else {
      var n := |more| - 1;
      assert (ds + more)[..|ds + more| - 1] == ds + more[..n] && (ds + more)[|ds + more| - 1] == more[n];
      StoredStays(r, s, ds, more[..n], h);
      var before := Deliver(r, s, ds + more[..n]);
      if before.blocks != [] { AddedStore(r, before, more[n].b, more[n].now, more[n].rewriteOk); }
    }
  }

  lemma OneMore(g: Block, ds: seq<Delivery>, d: Delivery)
    ensures (ds + [d])[..|ds + [d]| - 1] == ds && Arrived(g, ds + [d]) == Arrived(g, ds) + {d.b}
  {
    assert (ds + [d])[..|ds + [d]| - 1] == ds;
  }

  lemma {:induction false} ArrivedGrows(g: Block, ds: seq<Delivery>, i: nat)
    requires i <= |ds|
    ensures Arrived(g, ds[..i]) <= Arrived(g, ds)
  {
    if i == |ds| {
      assert ds[..i] == ds;
    } else {
      ArrivedGrows(g, ds[..|ds| - 1], i);
      assert ds[..|ds| - 1][..i] == ds[..i];
    }
  }

  /** Every block that arrived was delivered, at a point where it could come. */
  lemma {:induction false} WasDelivered(r: Rules, g: Block, all: set<Block>, ds: seq<Delivery>, b: Block)
    returns (d: Delivery)
    requires InOrder(r, g, all, ds) && b in Arrived(g, ds) && b != g
    ensures d.b == b && MayCome(r, g, all, Arrived(g, ds), d)
  {
    d := ds[|ds| - 1];
    if d.b != b { d := WasDelivered(r, g, all, ds[..|ds| - 1], b); }
  }

  /** The first point at which a twin arrives. */
  lemma {:induction false} FirstTwin(r: Rules, g: Block, all: set<Block>, ds: seq<Delivery>) returns (j: nat)
    requires !NoTwins(r, g, all, Arrived(g, ds))
    ensures j < |ds| && NoTwins(r, g, all, Arrived(g, ds[..j])) && !NoTwins(r, g, all, Arrived(g, ds[..j]) + {ds[j].b})
  {
    var init := ds[..|ds| - 1];
    if NoTwins(r, g, all, Arrived(g, init)) {
      j := |ds| - 1;
    } else {
      j := FirstTwin(r, g, all, init);
      assert init[..j] == ds[..j];
    }
  }

  function Without(ds: seq<Delivery>, x: Block): seq<Delivery> {
    if ds == [] then []
    else
      var d, rest := ds[|ds| - 1], Without(ds[..|ds| - 1], x);
      if d.b == x then rest else rest + [d]
  }

  /** A block no later one builds on can be left out. */
  lemma {:induction false} WithoutInOrder(r: Rules, g: Block, all: set<Block>, ds: seq<Delivery>, x: Block, y: Block)
    requires InOrder(r, g, all, ds) && x != g && y in all && y.hash == x.hash && y !in Arrived(g, ds)
    ensures InOrder(r, g, all, Without(ds, x)) && Arrived(g, Without(ds, x)) == Arrived(g, ds) - {x}
  {
    if ds != [] {
      var d, init := ds[|ds| - 1], ds[..|ds| - 1];
      WithoutInOrder(r, g, all, init, x, y);
      if d.b != x { OneMore(g, Without(init, x), d); }
    }
  }

  /** What may come after one beginning may come after another with the same blocks. */
  lemma {:induction false} SameBeginning(r: Rules, g: Block, all: set<Block>, ds: seq<Delivery>, es: seq<Delivery>,
                                         more: seq<Delivery>)
    requires InOrder(r, g, all, ds + more) && InOrder(r, g, all, es) && Arrived(g, ds) == Arrived(g, es)
    ensures InOrder(r, g, all, es + more) && Arrived(g, es + more) == Arrived(g, ds + more)
    decreases |more|
  {
    if more == [] {
      assert ds + more == ds && es + more == es;
    } else {
      var n := |more| - 1;
      assert (ds + more)[..|ds + more| - 1] == ds + more[..n] && (ds + more)[|ds + more| - 1] == more[n];
      assert (es + more)[..|es + more| - 1] == es + more[..n] && (es + more)[|es + more| - 1] == more[n];
      SameBeginning(r, g, all, ds, es, more[..n]);
    }
  }

  /** Two twins, neither with a twin among its ancestors: `x` arrives in `ds`, and `y` after it. */
  ghost predicate Twins(r: Rules, g: Block, all: set<Block>, ds: seq<Delivery>, x: Block, y: Block) {
    && InOrder(r, g, all, ds) && NoTwins(r, g, all, Arrived(g, ds))
    && x in Arrived(g, ds) && Good(r, g, all, x) && Good(r, g, all, y) && x.hash == y.hash && x != y
  }

  lemma TwinsFound(r: Rules, g: Block, all: set<Block>, ds: seq<Delivery>, d: Delivery) returns (x: Block)
    requires InOrder(r, g, all, ds) && NoTwins(r, g, all, Arrived(g, ds)) && !NoTwins(r, g, all, Arrived(g, ds) + {d.b})
    ensures Twins(r, g, all, ds, x, d.b)
  {
    var a, b :| a in Arrived(g, ds) + {d.b} && b in Arrived(g, ds) + {d.b} && Good(r, g, all, a) && Good(r, g, all, b)
                && a.hash == b.hash && a != b;
    x := if a == d.b then b else a;
  }

  /** The twin that came first can as well come right after the other. */
  lemma TwinDelayed(r: Rules, g: Block, all: set<Block>, ds: seq<Delivery>, x: Block, d: Delivery) returns (e: Delivery)
    requires g in all && Twins(r, g, all, ds, x, d.b) && MayCome(r, g, all, Arrived(g, ds), d)
    ensures e.b == x
    ensures var early := Without(ds, x) + [d];
            && InOrder(r, g, all, early) && NoTwins(r, g, all, Arrived(g, early)) && d.b in Arrived(g, early)
            && InOrder(r, g, all, early + [e]) && Arrived(g, early + [e]) == Arrived(g, ds + [d])
  {
    var y := d.b;
    assert y !in Arrived(g, ds);
    if x == g { GenesisHash(r, g, all, y); }
    e := WasDelivered(r, g, all, ds, x);
    WithoutInOrder(r, g, all, ds, x, y);
    OneMore(g, Without(ds, x), d);
    OneMore(g, Without(ds, x) + [d], e);
    OneMore(g, ds, d);
  }

  lemma {:induction false} PrefixInOrder(r: Rules, g: Block, all: set<Block>, ds: seq<Delivery>, j: nat)
    requires InOrder(r, g, all, ds) && j < |ds|
    ensures InOrder(r, g, all, ds[..j]) && MayCome(r, g, all, Arrived(g, ds[..j]), ds[j])
  {
    if j < |ds| - 1 {
      PrefixInOrder(r, g, all, ds[..|ds| - 1], j);
      assert ds[..|ds| - 1][..j] == ds[..j];
    }
  }

  /** A good block that arrived before any twin of it is what the node ends with under its hash. */
  lemma FirstIsKept(r: Rules, g: Block, all: set<Block>, ds: seq<Delivery>, more: seq<Delivery>, b: Block)
    requires Lawful(r) && GenesisOk(r, g) && g in all && InOrder(r, g, all, ds) && NoTwins(r, g, all, Arrived(g, ds))
    requires b in Arrived(g, ds) && Good(r, g, all, b)
    ensures var store := Deliver(r, Genesis(r, g), ds + more).store;
            b.hash in store && store[b.hash] == b
  {
    DeliverAll(r, g, all, ds);
    StoredStays(r, Genesis(r, g), ds, more, b.hash);
  }

  /** The order `ds` with the twins exchanged: `d` comes first, `e` right after it. */
  ghost predicate Exchanged(g: Block, ds: seq<Delivery>, pre: seq<Delivery>, d: Delivery, more: seq<Delivery>,
                            early: seq<Delivery>, e: Delivery)
  {
    ds == pre + [d] + more && Arrived(g, early + [e]) == Arrived(g, pre + [d])
  }

  lemma ExchangedIsComplete(r: Rules, g: Block, all: set<Block>, ds: seq<Delivery>, pre: seq<Delivery>, d: Delivery,
                            more: seq<Delivery>, early: seq<Delivery>, e: Delivery)
    requires Complete(r, g, all, ds) && Exchanged(g, ds, pre, d, more, early, e) && InOrder(r, g, all, early + [e])
    ensures Complete(r, g, all, early + [e] + more)
  {
    SameBeginning(r, g, all, pre + [d], early + [e], more);
  }

  lemma SplitAt(ds: seq<Delivery>, j: nat)
    requires j < |ds|
    ensures ds == ds[..j] + [ds[j]] + ds[j + 1..] && ds == ds[..j] + ([ds[j]] + ds[j + 1..])
  {
  }

  /** Where two good blocks share a hash the node keeps the one that came first: from any order one can make another
      that ends with another store. */
  lemma OrdersDiverge(r: Rules, g: Block, all: set<Block>, ds: seq<Delivery>) returns (es: seq<Delivery>)
    requires Lawful(r) && GenesisOk(r, g) && g in all && Complete(r, g, all, ds) && !NoTwins(r, g, all, all)
    ensures Complete(r, g, all, es)
    ensures Deliver(r, Genesis(r, g), ds).store != Deliver(r, Genesis(r, g), es).store
  {
    var j := FirstTwin(r, g, all, ds);
    PrefixInOrder(r, g, all, ds, j);
    SplitAt(ds, j);
    es := TwinsDiverge(r, g, all, ds, ds[..j], ds[j], ds[j + 1..]);
  }

  lemma TwinsDiverge(r: Rules, g: Block, all: set<Block>, ds: seq<Delivery>, pre: seq<Delivery>, d: Delivery,
                     more: seq<Delivery>)
    returns (es: seq<Delivery>)
    requires Lawful(r) && GenesisOk(r, g) && g in all && Complete(r, g, all, ds)
    requires ds == pre + [d] + more && ds == pre + ([d] + more)
    requires InOrder(r, g, all, pre) && MayCome(r, g, all, Arrived(g, pre), d)
    requires NoTwins(r, g, all, Arrived(g, pre)) && !NoTwins(r, g, all, Arrived(g, pre) + {d.b})
    ensures Complete(r, g, all, es)
    ensures Deliver(r, Genesis(r, g), ds).store != Deliver(r, Genesis(r, g), es).store
  {
    var x := TwinsFound(r, g, all, pre, d);
    var e := TwinDelayed(r, g, all, pre, x, d);
    var early := Without(pre, x) + [d];
    es := early + [e] + more;
    ExchangedIsComplete(r, g, all, ds, pre, d, more, early, e);
    FirstIsKept(r, g, all, pre, [d] + more, x);
    FirstIsKept(r, g, all, early, [e] + more, d.b);
    ConcatAssociative(early, [e], more);
  }

  /** Blocks that can be delivered parents first at all lead to the same node in every such order if and only if no two
      good blocks among them share a hash. */
  lemma DeliveriesConvergeIff(r: Rules, g: Block, all: set<Block>, some: seq<Delivery>)
    requires Lawful(r) && GenesisOk(r, g) && g in all && Complete(r, g, all, some)
    ensures NoTwins(r, g, all, all) <==>
            forall ds1, ds2 :: Complete(r, g, all, ds1) && Complete(r, g, all, ds2) ==>
                                 Deliver(r, Genesis(r, g), ds1) == Deliver(r, Genesis(r, g), ds2)
  {
    if NoTwins(r, g, all, all) {
      forall ds1, ds2 | Complete(r, g, all, ds1) && Complete(r, g, all, ds2)
        ensures Deliver(r, Genesis(r, g), ds1) == Deliver(r, Genesis(r, g), ds2)
      {
        DeliveriesConverge(r, g, all, ds1, ds2);
      }
    } else {
      var other := OrdersDiverge(r, g, all, some);
    }
  }

  /** For the node's own rules a clock rejects no good path once all blocks are within its drift bound. */
  lemma WithinDriftIsTimely(c: Config, g: Block, all: set<Block>, now: i64)
    requires forall b :: b in all ==> NearEnough(c.params, b, now)
    ensures Timely(RulesOf(c), g, all, now)
  {
    forall path | GoodPath(RulesOf(c), g, all, path) ensures RulesOf(c).replayAt(path, now).Ok? {
      forall i | 0 < i < |path| ensures NearEnough(c.params, path[i], now) { assert path[i] in all; }
      ClockOnlyRejects(c, path, now);
    }
  }
}
