/** The tree of stored blocks and the walk from a block to its genesis. */
module BlockTree {
  import opened Words
  import opened Types

  type Store = map<Bytes, Block>

  /** Where the walk stops: a genesis header. */
  predicate IsRoot(b: Block) {
    b.height == 0 || |b.prevHash| == 0
  }

  /** The path from genesis to `cur`, or why there is none. `seen` are the hashes already walked. */
  function PathTo(store: Store, cur: Bytes, seen: set<Bytes>): Result<seq<Block>, Error>
    decreases store.Keys - seen
  {
    if cur in seen then Err(CycleDetected)
    else if cur !in store then Err(MissingAncestor)
    else if IsRoot(store[cur]) then Ok([store[cur]])
    else
      match PathTo(store, store[cur].prevHash, seen + {cur})
      case Err(e) => Err(e)
      case Ok(path) => Ok(path + [store[cur]])
  }

  /** The ancestor walk: it ends on any store, because the keys not yet seen shrink. */
  method WalkToGenesis(store: Store, tip: Bytes) returns (r: Result<seq<Block>, Error>)
    ensures r == PathTo(store, tip, {})
  {
    var rev: seq<Block> := [];
    var seen: set<Bytes> := {};
    var cur := tip;
    ghost var whole := PathTo(store, tip, {});
    if whole.Ok? { assert whole.value + Reverse(rev) == whole.value; }
    while true
      invariant PathTo(store, tip, {}) ==
                match PathTo(store, cur, seen)
                case Err(e) => Err(e)
                case Ok(path) => Ok(path + Reverse(rev))
      decreases store.Keys - seen
    {
      if cur in seen { return Err(CycleDetected); }
      if cur !in store { return Err(MissingAncestor); }
      var b := store[cur];
      ghost var below := Reverse(rev);
      assert (rev + [b])[..|rev|] == rev;
      rev := rev + [b];
      assert Reverse(rev) == [b] + below;
      if b.height == 0 || |b.prevHash| == 0 {
        var path := ReverseBlocks(rev);
        return Ok(path);
      }
      ghost var rest := PathTo(store, b.prevHash, seen + {cur});
      if rest.Ok? { assert rest.value + [b] + below == rest.value + Reverse(rev); }
      seen := seen + {cur};
      cur := b.prevHash;
    }
  }

  method ReverseBlocks(rev: seq<Block>) returns (path: seq<Block>)
    ensures path == Reverse(rev)
  {
    path := [];
    var i := |rev| - 1;
    assert rev[..i + 1] == rev && [] + Reverse(rev) == Reverse(rev);
    while i >= 0
      invariant -1 <= i < |rev|
      invariant path + Reverse(rev[..i + 1]) == Reverse(rev)
    {
      assert rev[..i + 1][..i] == rev[..i];
      ConcatAssociative(path, [rev[i]], Reverse(rev[..i]));
      path := path + [rev[i]];
      i := i - 1;
    }
  }

  // ----- the shape of a path -----

  /** A successful walk is not changed by adding blocks or by having seen hashes that were not stored. */
  lemma {:induction false} PathSurvives(store: Store, bigger: Store, cur: Bytes, seen: set<Bytes>, extra: set<Bytes>)
    requires PathTo(store, cur, seen).Ok?
    requires forall h :: h in store ==> h in bigger && bigger[h] == store[h]
    requires extra !! store.Keys
    ensures PathTo(bigger, cur, seen + extra) == PathTo(store, cur, seen)
    decreases store.Keys - seen
  {
    if !IsRoot(store[cur]) {
      PathSurvives(store, bigger, store[cur].prevHash, seen + {cur}, extra);
      assert seen + {cur} + extra == seen + extra + {cur};
    }
  }

  /** Forgetting hashes already seen cannot make a successful walk fail. */
  lemma {:induction false} PathForgets(store: Store, cur: Bytes, seen: set<Bytes>, fewer: set<Bytes>)
    requires PathTo(store, cur, seen).Ok? && fewer <= seen
    ensures PathTo(store, cur, fewer) == PathTo(store, cur, seen)
    decreases store.Keys - seen
  {
    if !IsRoot(store[cur]) {
      PathForgets(store, store[cur].prevHash, seen + {cur}, fewer + {cur});
    }
  }

  /** Adding a block on a stored parent: its own path, and everybody else's unchanged. */
  lemma PathOfChild(store: Store, b: Block)
    requires b.hash !in store && b.prevHash in store && !IsRoot(b)
    requires PathTo(store, b.prevHash, {}).Ok?
    ensures PathTo(store[b.hash := b], b.hash, {}) == Ok(PathTo(store, b.prevHash, {}).value + [b])
  {
    PathSurvives(store, store[b.hash := b], b.prevHash, {}, {b.hash});
    assert {} + {b.hash} == {b.hash};
  }

  lemma PathOfOthers(store: Store, b: Block, h: Bytes)
    requires b.hash !in store && PathTo(store, h, {}).Ok?
    ensures PathTo(store[b.hash := b], h, {}) == PathTo(store, h, {})
  {
    PathSurvives(store, store[b.hash := b], h, {}, {});
    var none: set<Bytes> := {};
    assert none + none == none;
  }

  /** A path ends at its block, and without it is the path of the parent. */
  lemma PathStructure(store: Store, h: Bytes)
    requires PathTo(store, h, {}).Ok?
    ensures h in store
    ensures var path := PathTo(store, h, {}).value;
            && path != [] && path[|path| - 1] == store[h]
            && (IsRoot(store[h]) ==> path == [store[h]])
            && (!IsRoot(store[h]) ==> PathTo(store, store[h].prevHash, {}) == Ok(path[..|path| - 1]))
  {
    if !IsRoot(store[h]) {
      PathForgets(store, store[h].prevHash, {} + {h}, {});
      var path := PathTo(store, h, {}).value;
      assert path[..|path| - 1] == PathTo(store, store[h].prevHash, {h}).value by { assert {} + {h} == {h}; }
    }
  }

  /** Every block of a path is stored under a key of the store; only its first is a root. */
  lemma {:induction false} PathIsStored(store: Store, h: Bytes, seen: set<Bytes>, i: nat)
    requires PathTo(store, h, seen).Ok? && i < |PathTo(store, h, seen).value|
    ensures var b := PathTo(store, h, seen).value[i];
            (exists k :: k in store && store[k] == b) && (IsRoot(b) <==> i == 0)
    decreases store.Keys - seen
  {
    if IsRoot(store[h]) {
      assert store[h] == PathTo(store, h, seen).value[i];
    } else {
      var below := PathTo(store, store[h].prevHash, seen + {h}).value;
      PathNonEmpty(store, store[h].prevHash, seen + {h});
      if i < |below| {
        PathIsStored(store, store[h].prevHash, seen + {h}, i);
      }
    }
  }

  lemma {:induction false} PathNonEmpty(store: Store, h: Bytes, seen: set<Bytes>)
    requires PathTo(store, h, seen).Ok?
    ensures PathTo(store, h, seen).value != []
    decreases store.Keys - seen
  {
    if !IsRoot(store[h]) { PathNonEmpty(store, store[h].prevHash, seen + {h}); }
  }
}
