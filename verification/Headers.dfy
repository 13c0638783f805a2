/** The proof-of-work header of a block under either encoding, and what it commits to. */
module Headers {
  import opened Words
  import opened Types
  import opened TxRules
  import opened Encoding
  import opened Ledger
  import opened MiningTheorems
  import opened MiningFailures
  import Merkle
  import TxCodec

  /** The signing hashes of the transactions in order; `None` when one cannot be encoded. */
  function SigningHashes(c: Config, txs: seq<Transaction>, h: u64): (r: Option<seq<Bytes>>)
    ensures r.Some? ==> |r.value| == |txs| && forall i :: 0 <= i < |txs| ==> |r.value[i]| == 32
  {
    if txs == [] then Some([])
    else
      match (SigningHashes(c, txs[..|txs| - 1], h), SigningPreimage(c, txs[|txs| - 1], h))
      case (Some(hs), Some(pre)) => Some(hs + [c.env.sha(pre)])
      case _ => None
  }

  lemma {:induction false} HashAt(c: Config, txs: seq<Transaction>, h: u64, i: nat)
    requires SigningHashes(c, txs, h).Some? && i < |txs|
    ensures SigningPreimage(c, txs[i], h).Some?
            && SigningHashes(c, txs, h).value[i] == c.env.sha(SigningPreimage(c, txs[i], h).value)
  {
    if i < |txs| - 1 { HashAt(c, txs[..|txs| - 1], h, i); }
  }

  lemma {:induction false} HashingStops(c: Config, txs: seq<Transaction>, h: u64, i: nat)
    requires i < |txs| && SigningPreimage(c, txs[i], h).None?
    ensures SigningHashes(c, txs, h).None?
  {
    if i < |txs| - 1 { HashingStops(c, txs[..|txs| - 1], h, i); }
  }

  /** The transaction root: a Merkle root from version 2 on, before that one hash over all signing hashes. */
  function TxRoot(c: Config, b: Block): Option<Digest> {
    match SigningHashes(c, b.txs, b.height)
    case None => None
    case Some(hashes) =>
      if b.version != 2 then Some(c.env.sha(Flatten(hashes)))
      else if hashes == [] then None
      else Some(Merkle.RootOf(c.env.sha, Merkle.LeafLevel(c.env.sha, hashes)))
  }

  /** TxRootLegacyForConsensus */
  method TxRootLegacy(c: Config, b: Block) returns (r: Option<Digest>)
    requires b.version != 2
    ensures r == TxRoot(c, b)
  {
    var written: Bytes := [];
    ghost var hashes: seq<Bytes> := [];
    for i := 0 to |b.txs|
      invariant SigningHashes(c, b.txs[..i], b.height) == Some(hashes) && written == Flatten(hashes)
    {
      var pre := SigningPreimage(c, b.txs[i], b.height);
      if pre.None? { HashingStops(c, b.txs, b.height, i); return None; }
      NextHash(c, b.txs, b.height, i);
      FlattenAppend(hashes, [c.env.sha(pre.value)]);
      FlattenOne(c.env.sha(pre.value));
      hashes := hashes + [c.env.sha(pre.value)];
      written := written + c.env.sha(pre.value);
    }
    assert b.txs[..|b.txs|] == b.txs;
    return Some(c.env.sha(written));
  }

  /** MerkleRootV2ForConsensus */
  method MerkleRootV2(c: Config, b: Block) returns (r: Option<Digest>)
    requires b.version == 2
    ensures r == TxRoot(c, b)
  {
    var leaves: seq<Bytes> := [];
    for i := 0 to |b.txs|
      invariant SigningHashes(c, b.txs[..i], b.height) == Some(leaves)
    {
      var pre := SigningPreimage(c, b.txs[i], b.height);
      if pre.None? { HashingStops(c, b.txs, b.height, i); return None; }
      NextHash(c, b.txs, b.height, i);
      leaves := leaves + [c.env.sha(pre.value)];
    }
    assert b.txs[..|b.txs|] == b.txs;
    var root := Merkle.MerkleRoot(c.env.sha, leaves);
    if root.Err? { return None; }
    return Some(root.value);
  }

  lemma NextHash(c: Config, txs: seq<Transaction>, h: u64, i: nat)
    requires i < |txs| && SigningHashes(c, txs[..i], h).Some? && SigningPreimage(c, txs[i], h).Some?
    ensures SigningHashes(c, txs[..i + 1], h)
            == Some(SigningHashes(c, txs[..i], h).value + [c.env.sha(SigningPreimage(c, txs[i], h).value)])
  {
    var upTo := txs[..i + 1];
    assert upTo[..|upTo| - 1] == txs[..i] && upTo[|upTo| - 1] == txs[i];
  }

  lemma FlattenOne(b: Bytes)
    ensures Flatten([b]) == b
  {
  }

  /** HeaderBytesForConsensus; `json` stands for the two JSON forms used before activation. */
  function HeaderBytes(c: Config, json: (Block, u64) -> Option<Bytes>, b: Block, nonce: u64): Option<Bytes> {
    if BinaryEncodingActive(c.params, b.height) then
      match TxRoot(c, b)
      case None => None
      case Some(root) => TxCodec.BinaryHeader(b, root, nonce)
    else json(b, nonce)
  }

  // ----- what a header names -----

  /** The environment's header encoding is the node's own. */
  ghost predicate OwnHeaders(c: Config, json: (Block, u64) -> Option<Bytes>) {
    forall b: Block, n: u64 :: c.env.header(b, n) == HeaderBytes(c, json, b, n)
  }

  /** A JSON header opens with a brace and shows the height and the parent. */
  ghost predicate JsonNamesParent(json: (Block, u64) -> Option<Bytes>) {
    && (forall b, n :: json(b, n).Some? ==> |json(b, n).value| > 0 && json(b, n).value[0] == 0x7B)
    && (forall a, m, b, n :: json(a, m).Some? && json(a, m) == json(b, n) ==>
       a.height == b.height && a.prevHash == b.prevHash)
  }

  lemma EqualHeaders(c: Config, json: (Block, u64) -> Option<Bytes>, a: Block, m: u64, b: Block, n: u64)
    requires JsonNamesParent(json)
    requires HeaderBytes(c, json, a, m).Some? && HeaderBytes(c, json, a, m) == HeaderBytes(c, json, b, n)
    ensures a.height == b.height && (|a.prevHash| > 0 && |b.prevHash| > 0 ==> a.prevHash == b.prevHash)
  {
    if BinaryEncodingActive(c.params, a.height) { TxCodec.HeaderOpensWithVersion(a, TxRoot(c, a).value, m); }
    if BinaryEncodingActive(c.params, b.height) { TxCodec.HeaderOpensWithVersion(b, TxRoot(c, b).value, n); }
    if BinaryEncodingActive(c.params, a.height) && BinaryEncodingActive(c.params, b.height) {
      TxCodec.HeaderInjective(a, b, TxRoot(c, a).value, TxRoot(c, b).value, m, n);
    }
  }

  /** The node's own header encoding meets what mining relies on: equal headers, of either form, have equal
      heights and parents. */
  lemma HeaderBytesNameParent(c: Config, json: (Block, u64) -> Option<Bytes>)
    requires JsonNamesParent(json)
    requires OwnHeaders(c, json)
    ensures HeaderNamesParent(c.env)
  {
    forall a: Block, m: u64, b: Block, n: u64 | c.env.header(a, m).Some? && c.env.header(a, m) == c.env.header(b, n)
      ensures a.height == b.height && (|a.prevHash| > 0 && |b.prevHash| > 0 ==> a.prevHash == b.prevHash)
    {
      EqualHeaders(c, json, a, m, b, n);
    }
  }

  // ----- a header commits to the transactions -----

  /** Everything hashed on the way from the transactions of `b` to its root. */
  ghost function Hashed(c: Config, b: Block): set<Bytes> {
    match SigningHashes(c, b.txs, b.height)
    case None => {}
    case Some(hashes) =>
      (set i | 0 <= i < |b.txs| && SigningPreimage(c, b.txs[i], b.height).Some? ::
          SigningPreimage(c, b.txs[i], b.height).value)
      + (if b.version != 2 || hashes == [] then {Flatten(hashes)}
          else Merkle.TreeInputs(c.env.sha, Merkle.TreeOf(hashes)))
  }

  lemma {:induction false} FlattenLength(a: seq<Bytes>)
    requires forall i :: 0 <= i < |a| ==> |a[i]| == 32
    ensures |Flatten(a)| == 32 * |a|
  {
    if a != [] {
      var init := a[..|a| - 1];
      assert a == init + [a[|a| - 1]];
      FlattenLength(init);
      FlattenAppend(init, [a[|a| - 1]]);
      FlattenOne(a[|a| - 1]);
    }
  }

  /** The old root binds the hashes whatever their number. */
  lemma LegacyRootBinding(a: seq<Bytes>, b: seq<Bytes>)
    requires forall i :: 0 <= i < |a| ==> |a[i]| == 32
    requires forall i :: 0 <= i < |b| ==> |b[i]| == 32
    requires Flatten(a) == Flatten(b)
    ensures a == b
  {
    FlattenLength(a);
    FlattenLength(b);
    assert Flatten(a) + [] == Flatten(b) + [];
    FlattenInjective(a, b, [], []);
  }

  // ----- a ledger that accepts a block accepts no transaction twice -----

  /** A transfer accepted later in a block has a larger nonce than its sender's account had before. */
  lemma {:induction false} LaterNonce(c: Config, st: State, txs: seq<Transaction>, k: nat, h: u64, j: nat)
    requires 0 < k <= j < |txs| && ApplyTxs(c, st, txs, k, h).error.None?
    ensures txs[j].kind.Transfer? && KeyOk(txs[j]) && Lookup(st, Sender(c.env, txs[j])).nonce < txs[j].nonce
    decreases j - k
  {
    TransferMovesNonce(c, st, txs[k], k, h);
    if k < j {
      LaterNonce(c, ApplyTx(c, st, txs[k], k, h).state, txs, k + 1, h, j);
    }
  }

  lemma {:induction false} NoncesRise(c: Config, st: State, txs: seq<Transaction>, k: nat, h: u64, i: nat, j: nat)
    requires k <= i < j < |txs| && ApplyTxs(c, st, txs, k, h).error.None? && txs[i].kind.Transfer?
    ensures KeyOk(txs[i]) && txs[j].kind.Transfer? && KeyOk(txs[j])
    ensures Sender(c.env, txs[i]) == Sender(c.env, txs[j]) ==> txs[i].nonce < txs[j].nonce
    decreases i - k
  {
    var next := ApplyTx(c, st, txs[k], k, h).state;
    if k < i {
      NoncesRise(c, next, txs, k + 1, h, i, j);
    } else {
      LaterNonce(c, next, txs, k + 1, h, j);
      assert Lookup(next, Sender(c.env, txs[i])).nonce == txs[i].nonce;
    }
  }

  lemma SignedTwice(c: Config, st: State, b: Block, i: nat, j: nat)
    requires ApplyBlock(c, st, b).error.None? && i < j < |b.txs| && TxCodec.SignedView(b.txs[j]).Ok?
    ensures TxCodec.SignedView(b.txs[i]) != TxCodec.SignedView(b.txs[j])
  {
    LaterIsTransfer(c, st, b, j);
    if b.txs[i].kind.Transfer? { NoncesRise(c, st, b.txs, 0, b.height, i, j); }
  }

  lemma LaterIsTransfer(c: Config, st: State, b: Block, j: nat)
    requires ApplyBlock(c, st, b).error.None? && 0 < j < |b.txs|
    ensures b.txs[j].kind.Transfer? && KeyOk(b.txs[j])
  {
    LaterNonce(c, ApplyTx(c, st, b.txs[0], 0, b.height).state, b.txs, 1, b.height, j);
  }

  /** The signing hashes of an accepted block are all different, absent collisions. */
  lemma HashesDiffer(c: Config, st: State, b: Block, i: nat, j: nat)
    requires ApplyBlock(c, st, b).error.None? && BinaryEncodingActive(c.params, b.height)
             && SigningHashes(c, b.txs, b.height).Some?
    requires Merkle.NoCollisions(c.env.sha, Hashed(c, b)) && i < j < |b.txs|
    ensures SigningHashes(c, b.txs, b.height).value[i] != SigningHashes(c, b.txs, b.height).value[j]
  {
    HashAt(c, b.txs, b.height, i);
    HashAt(c, b.txs, b.height, j);
    var x, y := SigningPreimage(c, b.txs[i], b.height).value, SigningPreimage(c, b.txs[j], b.height).value;
    assert x in Hashed(c, b) && y in Hashed(c, b);
    SignedTwice(c, st, b, i, j);
    if x == y { TxCodec.TxPreimageInjective(b.txs[i], b.txs[j]); }
  }

  // ----- equal headers, equal transactions -----

  lemma RootsBindHashes(c: Config, a: Block, b: Block)
    requires a.version == b.version && a.height == b.height && (a.version == 2 ==> |a.txs| == |b.txs|)
    requires TxRoot(c, a).Some? && TxRoot(c, a) == TxRoot(c, b)
    requires Merkle.NoCollisions(c.env.sha, Hashed(c, a) + Hashed(c, b))
    ensures SigningHashes(c, a.txs, a.height) == SigningHashes(c, b.txs, b.height)
  {
    var x, y := SigningHashes(c, a.txs, a.height).value, SigningHashes(c, b.txs, b.height).value;
    if a.version != 2 {
      LegacyRootBinding(x, y);
    } else {
      Merkle.MerkleRootBinding(c.env.sha, x, y);
    }
  }

  /** Two accepted blocks of different lengths have different Merkle roots. */
  lemma RootsBindCount(c: Config, a: Block, b: Block, st: State)
    requires a.version == b.version == 2 && a.height == b.height && BinaryEncodingActive(c.params, b.height)
    requires TxRoot(c, a).Some? && TxRoot(c, a) == TxRoot(c, b)
    requires Merkle.NoCollisions(c.env.sha, Hashed(c, a) + Hashed(c, b))
    requires ApplyBlock(c, st, b).error.None?
    ensures |a.txs| >= |b.txs|
  {
    if |a.txs| < |b.txs| {
      var x, y := SigningHashes(c, a.txs, a.height).value, SigningHashes(c, b.txs, b.height).value;
      var i, j := Merkle.MerkleRootRepeats(c.env.sha, x, y);
      HashesDiffer(c, st, b, i, j);
    }
  }

  lemma SameHashesSameTxs(c: Config, a: Block, b: Block, i: nat)
    requires a.height == b.height && BinaryEncodingActive(c.params, a.height) && i < |a.txs|
    requires SigningHashes(c, a.txs, a.height).Some?
             && SigningHashes(c, a.txs, a.height) == SigningHashes(c, b.txs, b.height)
    requires Merkle.NoCollisions(c.env.sha, Hashed(c, a) + Hashed(c, b))
    ensures |a.txs| == |b.txs| && TxCodec.SignedView(a.txs[i]) == TxCodec.SignedView(b.txs[i])
  {
    HashAt(c, a.txs, a.height, i);
    HashAt(c, b.txs, b.height, i);
    assert SigningPreimage(c, a.txs[i], a.height).value in Hashed(c, a);
    assert SigningPreimage(c, b.txs[i], b.height).value in Hashed(c, b);
    TxCodec.TxPreimageInjective(a.txs[i], b.txs[i]);
  }

  /** Two blocks with the same binary header that ledgers accept, each from any accounts, carry the same signed
      transactions in the same order. A doubled last transaction keeps a Merkle root, but no ledger accepts it. */
  lemma HeaderCommitsToTxs(c: Config, a: Block, m: u64, b: Block, n: u64, st: State, st': State)
    requires BinaryEncodingActive(c.params, a.height) && TxRoot(c, a).Some? && TxRoot(c, b).Some?
    requires TxCodec.BinaryHeader(a, TxRoot(c, a).value, m).Some?
    requires TxCodec.BinaryHeader(a, TxRoot(c, a).value, m) == TxCodec.BinaryHeader(b, TxRoot(c, b).value, n)
    requires Merkle.NoCollisions(c.env.sha, Hashed(c, a) + Hashed(c, b))
    requires ApplyBlock(c, st, a).error.None? && ApplyBlock(c, st', b).error.None?
    ensures |a.txs| == |b.txs|
    ensures forall i :: 0 <= i < |a.txs| ==> TxCodec.SignedView(a.txs[i]) == TxCodec.SignedView(b.txs[i])
  {
    TxCodec.HeaderInjective(a, b, TxRoot(c, a).value, TxRoot(c, b).value, m, n);
    if a.version == 2 {
      RootsBindCount(c, a, b, st');
      RootsBindCount(c, b, a, st);
    }
    RootsBindHashes(c, a, b);
    forall i | 0 <= i < |a.txs| ensures TxCodec.SignedView(a.txs[i]) == TxCodec.SignedView(b.txs[i]) {
      SameHashesSameTxs(c, a, b, i);
    }
  }
}
