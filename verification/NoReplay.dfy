/** The transfers of a chain in order, and why none can be accepted twice. */
module NoReplay {
  import opened Words
  import opened Types
  import opened TxRules
  import opened Ledger
  import TxCodec
  import Hex
  import Merkle

  /** A transfer with its place on the chain. */
  datatype Posted = Posted(tx: Transaction, height: u64, hash: Bytes, index: nat)

  function PostedAt(b: Block, i: nat): seq<Posted>
    requires i < |b.txs|
  {
    if b.txs[i].kind.Transfer? then [Posted(b.txs[i], b.height, b.hash, i)] else []
  }

  function PostedFrom(b: Block, i: nat): seq<Posted>
    decreases |b.txs| - i
  {
    if i >= |b.txs| then [] else PostedAt(b, i) + PostedFrom(b, i + 1)
  }

  /** All transfers of a chain, oldest first. */
  function History(path: seq<Block>): seq<Posted> {
    if path == [] then [] else History(path[..|path| - 1]) + PostedFrom(path[|path| - 1], 0)
  }

  ghost function SentCount(env: Env, ts: seq<Posted>, a: string): nat {
    if ts == [] then 0
    else SentCount(env, ts[..|ts| - 1], a) + if SentBy(env, ts[|ts| - 1].tx, a) then 1 else 0
  }

  /** Every account nonce is the number of transfers its owner has sent. */
  ghost predicate NoncesCount(env: Env, st: State, ts: seq<Posted>) {
    forall a :: Lookup(st, a).nonce == SentCount(env, ts, a)
  }

  /** `p`, coming after `ts`, has an id and carries the next nonce of its sender. */
  ghost predicate InSequence(c: Config, ts: seq<Posted>, p: Posted) {
    && p.tx.kind.Transfer? && KeyOk(p.tx)
    && TxId(c, p.tx, p.height).Some?
    && p.tx.nonce == 1 + SentCount(c.env, ts, Sender(c.env, p.tx))
  }

  /** The k-th transfer a sender makes carries nonce k. */
  ghost predicate Sequenced(c: Config, ts: seq<Posted>) {
    ts == [] || (Sequenced(c, ts[..|ts| - 1]) && InSequence(c, ts[..|ts| - 1], ts[|ts| - 1]))
  }

  lemma {:induction false} SequencedAt(c: Config, ts: seq<Posted>, k: nat)
    requires Sequenced(c, ts) && k < |ts|
    ensures InSequence(c, ts[..k], ts[k])
  {
    var n := |ts| - 1;
    if k < n {
      SequencedAt(c, ts[..n], k);
      assert ts[..n][..k] == ts[..k];
    }
  }

  /** An accepted transfer raises its sender's nonce by one and no other. */
  lemma TransferNonces(st: State, from: string, tx: Transaction)
    requires ApplyTransfer(st, from, tx).error.None? && tx.nonce != 0
    ensures tx.nonce == Lookup(st, from).nonce + 1
    ensures forall a :: Lookup(ApplyTransfer(st, from, tx).state, a).nonce
                        == Lookup(st, a).nonce + if a == from then 1 else 0
  {
  }

  lemma OneMoreTransfer(c: Config, st: State, p: Posted, ts: seq<Posted>)
    requires p.tx.kind.Transfer? && VerifyTx(c, p.tx, p.height).None?
    requires ApplyTransfer(st, Sender(c.env, p.tx), p.tx).error.None?
    requires NoncesCount(c.env, st, ts) && Sequenced(c, ts)
    ensures NoncesCount(c.env, ApplyTransfer(st, Sender(c.env, p.tx), p.tx).state, ts + [p])
    ensures Sequenced(c, ts + [p])
  {
    var from := Sender(c.env, p.tx);
    TransferNonces(st, from, p.tx);
    assert (ts + [p])[..|ts|] == ts;
    OneMoreCounted(c, st, p, ts, ApplyTransfer(st, from, p.tx).state);
  }

  lemma OneMoreCounted(c: Config, st: State, p: Posted, ts: seq<Posted>, after: State)
    requires p.tx.kind.Transfer? && KeyOk(p.tx) && NoncesCount(c.env, st, ts)
    requires forall a :: Lookup(after, a).nonce == Lookup(st, a).nonce + if a == Sender(c.env, p.tx) then 1 else 0
    ensures NoncesCount(c.env, after, ts + [p])
  {
    assert (ts + [p])[..|ts|] == ts;
  }

  lemma OneMoreTx(c: Config, st: State, b: Block, i: nat, ts: seq<Posted>)
    requires i < |b.txs| && ApplyTx(c, st, b.txs[i], i, b.height).error.None?
    requires NoncesCount(c.env, st, ts) && Sequenced(c, ts)
    ensures NoncesCount(c.env, ApplyTx(c, st, b.txs[i], i, b.height).state, ts + PostedAt(b, i))
    ensures Sequenced(c, ts + PostedAt(b, i))
  {
    if b.txs[i].kind.Transfer? {
      OneMoreTransfer(c, st, Posted(b.txs[i], b.height, b.hash, i), ts);
    } else {
      assert ts + [] == ts;
    }
  }

  lemma {:induction false} TransfersSequence(c: Config, st: State, b: Block, i: nat, ts: seq<Posted>)
    requires i <= |b.txs| && ApplyTxs(c, st, b.txs, i, b.height).error.None?
    requires NoncesCount(c.env, st, ts) && Sequenced(c, ts)
    ensures NoncesCount(c.env, ApplyTxs(c, st, b.txs, i, b.height).state, ts + PostedFrom(b, i))
    ensures Sequenced(c, ts + PostedFrom(b, i))
    decreases |b.txs| - i
  {
    if i == |b.txs| {
      assert ts + [] == ts;
    } else {
      OneMoreTx(c, st, b, i, ts);
      TransfersSequence(c, ApplyTx(c, st, b.txs[i], i, b.height).state, b, i + 1, ts + PostedAt(b, i));
      ConcatAssociative(ts, PostedAt(b, i), PostedFrom(b, i + 1));
    }
  }

  /** On every accepted chain nonces count transfers and each sender's transfers are numbered 1, 2, 3, ... */
  lemma {:induction false} ChainSequenced(c: Config, path: seq<Block>)
    requires ApplyBlocks(c, path).error.None?
    ensures NoncesCount(c.env, ApplyBlocks(c, path).state, History(path))
    ensures Sequenced(c, History(path))
  {
    if path != [] {
      var n := |path| - 1;
      ChainSequenced(c, path[..n]);
      TransfersSequence(c, ApplyBlocks(c, path[..n]).state, path[n], 0, History(path[..n]));
    }
  }

  lemma {:induction false} CountMonotone(env: Env, ts: seq<Posted>, k: nat, l: nat, a: string)
    requires k <= l <= |ts|
    ensures SentCount(env, ts[..k], a) <= SentCount(env, ts[..l], a)
    decreases l
  {
    if k < l {
      CountMonotone(env, ts, k, l - 1, a);
      assert ts[..l][..l - 1] == ts[..l - 1];
    }
  }

  lemma LaterNonceIsLarger(c: Config, ts: seq<Posted>, k: nat, l: nat)
    requires Sequenced(c, ts) && k < l < |ts|
    requires FromAddress(c.env, ts[k].tx) == FromAddress(c.env, ts[l].tx)
    ensures ts[k].tx.nonce < ts[l].tx.nonce
  {
    SequencedAt(c, ts, k);
    SequencedAt(c, ts, l);
    var a := Sender(c.env, ts[k].tx);
    assert ts[..k + 1][..k] == ts[..k];
    CountMonotone(c.env, ts, k + 1, l, a);
  }

  /** No sender uses a nonce twice on an accepted chain. */
  lemma NoNonceReuse(c: Config, path: seq<Block>, k: nat, l: nat)
    requires ApplyBlocks(c, path).error.None?
    requires k < l < |History(path)|
    ensures var a, b := History(path)[k].tx, History(path)[l].tx;
            FromAddress(c.env, a) == FromAddress(c.env, b) ==> a.nonce < b.nonce
  {
    ChainSequenced(c, path);
    var ts := History(path);
    if FromAddress(c.env, ts[k].tx) == FromAddress(c.env, ts[l].tx) {
      LaterNonceIsLarger(c, ts, k, l);
    }
  }

  /** What the JSON signing view guarantees: it opens with a brace, and names the sender and the nonce. */
  ghost predicate JsonSeparates(env: Env) {
    && (forall tx :: env.legacyPreimage(tx).Some? ==>
                       |env.legacyPreimage(tx).value| > 0 && env.legacyPreimage(tx).value[0] == 0x7B)
    && (forall a, b :: env.legacyPreimage(a).Some? && env.legacyPreimage(a) == env.legacyPreimage(b) ==>
                         FromAddress(env, a) == FromAddress(env, b) && a.nonce == b.nonce)
  }

  ghost function Preimages(c: Config, ts: seq<Posted>): set<Bytes> {
    set k | 0 <= k < |ts| && SigningPreimage(c, ts[k].tx, ts[k].height).Some?
      :: SigningPreimage(c, ts[k].tx, ts[k].height).value
  }

  lemma BinaryOpensWithVersion(tx: Transaction)
    requires TxCodec.TxPreimage(tx).Ok?
    ensures |TxCodec.TxPreimage(tx).value| > 0 && TxCodec.TxPreimage(tx).value[0] == 1
  {
    TxCodec.VersionByte(TxCodec.SignedView(tx).value);
  }

  /** Signing bytes identify sender and nonce across both encodings. */
  lemma PreimageNamesSender(c: Config, a: Transaction, ha: u64, b: Transaction, hb: u64)
    requires JsonSeparates(c.env)
    requires a.kind.Transfer? && b.kind.Transfer? && KeyOk(a) && KeyOk(b)
    requires SigningPreimage(c, a, ha).Some? && SigningPreimage(c, a, ha) == SigningPreimage(c, b, hb)
    ensures Sender(c.env, a) == Sender(c.env, b) && a.nonce == b.nonce
  {
    var binA, binB := BinaryEncodingActive(c.params, ha), BinaryEncodingActive(c.params, hb);
    if binA { BinaryOpensWithVersion(a); }
    if binB { BinaryOpensWithVersion(b); }
    if binA && binB {
      TxCodec.TxPreimageInjective(a, b);
    }
  }

  /** No transaction id appears twice on an accepted chain. */
  lemma TxIdsUnique(c: Config, path: seq<Block>, k: nat, l: nat)
    requires ApplyBlocks(c, path).error.None? && JsonSeparates(c.env)
    requires Merkle.NoCollisions(c.env.sha, Preimages(c, History(path)))
    requires k < l < |History(path)|
    ensures var p, q := History(path)[k], History(path)[l];
            TxId(c, p.tx, p.height) != TxId(c, q.tx, q.height)
  {
    var ts := History(path);
    ChainSequenced(c, path);
    var p, q := ts[k], ts[l];
    SequencedAt(c, ts, k);
    SequencedAt(c, ts, l);
    if TxId(c, p.tx, p.height) == TxId(c, q.tx, q.height) {
      var x, y := SigningPreimage(c, p.tx, p.height).value, SigningPreimage(c, q.tx, q.height).value;
      Hex.EncodeInjective(c.env.sha(x), c.env.sha(y));
      assert x in Preimages(c, ts) && y in Preimages(c, ts);
      PreimageNamesSender(c, p.tx, p.height, q.tx, q.height);
      LaterNonceIsLarger(c, ts, k, l);
      assert false;
    }
  }
}
