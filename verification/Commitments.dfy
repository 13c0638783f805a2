/** What equal headers say about the accounts: the ledger keys them by address strings, which a header does not hold. */
module Commitments {
  import opened Words
  import opened Types
  import opened TxRules
  import opened Ledger
  import opened Conservation
  import opened NoReplay
  import opened Headers
  import opened Pow
  import opened NodeRules
  import Merkle
  import TxCodec
  import Addresses
  import Hex

  // ----- the effect of a block on one account -----

  ghost function CreditOf(tx: Transaction, a: string): nat { if tx.toAddress == a then tx.amount else 0 }

  ghost function DebitOf(env: Env, tx: Transaction, a: string): nat {
    if SentBy(env, tx, a) then tx.amount + tx.fee else 0
  }

  /** What the transactions from `i` on pay to an address. */
  ghost function Credited(txs: seq<Transaction>, i: nat, a: string): nat
    decreases |txs| - i
  {
    if i >= |txs| then 0 else CreditOf(txs[i], a) + Credited(txs, i + 1, a)
  }

  /** What they take from it. */
  ghost function Taken(env: Env, txs: seq<Transaction>, i: nat, a: string): nat
    decreases |txs| - i
  {
    if i >= |txs| then 0 else DebitOf(env, txs[i], a) + Taken(env, txs, i + 1, a)
  }

  /** How many of them it sends. */
  ghost function Sends(env: Env, txs: seq<Transaction>, i: nat, a: string): nat
    decreases |txs| - i
  {
    if i >= |txs| then 0 else SendOf(env, txs[i], a) + Sends(env, txs, i + 1, a)
  }

  /** An account that was paid `up`, charged `down`, and sent `sends` transfers. */
  ghost predicate Moved(before: Account, after: Account, up: int, down: int, sends: int) {
    after.balance == (before.balance + up - down) % TWO64 && after.nonce == before.nonce + sends
  }

  lemma MovedTwice(x: Account, y: Account, z: Account, up: int, down: int, sends: int, ups: int, downs: int, more: int)
    requires Moved(x, y, up, down, sends) && Moved(y, z, ups, downs, more)
    ensures Moved(x, z, up + ups, down + downs, sends + more)
  {
  }

  lemma MovedAlikeIff(x: Account, y: Account, z: Account, p: nat, q: nat, down: int, sends: int)
    requires Moved(x, y, p, down, sends) && Moved(x, z, q, down, sends)
    ensures y == z <==> p % TWO64 == q % TWO64
  {
  }

  ghost function SendOf(env: Env, tx: Transaction, a: string): nat { if SentBy(env, tx, a) then 1 else 0 }

  lemma TransferEffect(env: Env, st: State, tx: Transaction, a: string)
    requires tx.kind.Transfer? && KeyOk(tx) && tx.nonce != 0 && ApplyTransfer(st, Sender(env, tx), tx).error.None?
    ensures Moved(Lookup(st, a), Lookup(ApplyTransfer(st, Sender(env, tx), tx).state, a),
                  CreditOf(tx, a), DebitOf(env, tx, a), SendOf(env, tx, a))
  {
    var from := Sender(env, tx);
    assert SentBy(env, tx, a) <==> from == a;
    TransferMoves(st, from, tx, a);
    TransferNonces(st, from, tx);
  }

  lemma CreditEffect(st: State, to: string, amount: u64, a: string)
    ensures Moved(Lookup(st, a), Lookup(Credit(st, to, amount), a), if to == a then amount else 0, 0, 0)
  {
  }

  lemma TxEffect(c: Config, st: State, tx: Transaction, i: nat, h: u64, a: string)
    requires ApplyTx(c, st, tx, i, h).error.None?
    ensures Moved(Lookup(st, a), Lookup(ApplyTx(c, st, tx, i, h).state, a),
                  CreditOf(tx, a), DebitOf(c.env, tx, a), SendOf(c.env, tx, a))
  {
    if tx.kind.Transfer? {
      TransferEffect(c.env, st, tx, a);
    } else {
      CreditEffect(st, tx.toAddress, tx.amount, a);
    }
  }

  lemma EffectOfRest(env: Env, txs: seq<Transaction>, i: nat, a: string, x: Account, y: Account, z: Account)
    requires i < |txs| && Moved(x, y, CreditOf(txs[i], a), DebitOf(env, txs[i], a), SendOf(env, txs[i], a))
    requires Moved(y, z, Credited(txs, i + 1, a), Taken(env, txs, i + 1, a), Sends(env, txs, i + 1, a))
    ensures Moved(x, z, Credited(txs, i, a), Taken(env, txs, i, a), Sends(env, txs, i, a))
  {
    MovedTwice(x, y, z, CreditOf(txs[i], a), DebitOf(env, txs[i], a), SendOf(env, txs[i], a),
               Credited(txs, i + 1, a), Taken(env, txs, i + 1, a), Sends(env, txs, i + 1, a));
  }

  /** An accepted run of transactions moves every account by what it pays and takes, modulo 2^64. */
  lemma {:induction false} TxsEffect(c: Config, st: State, txs: seq<Transaction>, i: nat, h: u64, a: string)
    requires i <= |txs| && ApplyTxs(c, st, txs, i, h).error.None?
    ensures Moved(Lookup(st, a), Lookup(ApplyTxs(c, st, txs, i, h).state, a),
                  Credited(txs, i, a), Taken(c.env, txs, i, a), Sends(c.env, txs, i, a))
    decreases |txs| - i
  {
    if i < |txs| {
      var tx, next := txs[i], ApplyTx(c, st, txs[i], i, h).state;
      TxEffect(c, st, tx, i, h, a);
      TxsEffect(c, next, txs, i + 1, h, a);
      EffectOfRest(c.env, txs, i, a, Lookup(st, a), Lookup(next, a), Lookup(ApplyTxs(c, next, txs, i + 1, h).state, a));
    }
  }

  // ----- equal headers -----

  /** Two lists of transactions that sign the same, one by one. */
  ghost predicate SignAlike(x: seq<Transaction>, y: seq<Transaction>) {
    |x| == |y| && forall i :: 0 <= i < |x| ==>
        TxCodec.SignedView(x[i]).Ok? && TxCodec.SignedView(x[i]) == TxCodec.SignedView(y[i])
  }

  lemma {:induction false} SignAlikeTake(env: Env, x: seq<Transaction>, y: seq<Transaction>, i: nat, a: string)
    requires SignAlike(x, y)
    ensures Taken(env, x, i, a) == Taken(env, y, i, a) && Sends(env, x, i, a) == Sends(env, y, i, a)
    decreases |x| - i
  {
    if i < |x| {
      assert TxCodec.SignedView(x[i]) == TxCodec.SignedView(y[i]);
      SignAlikeOne(env, x[i], y[i], a);
      SignAlikeTake(env, x, y, i + 1, a);
    }
  }

  lemma SignAlikeOne(env: Env, t: Transaction, u: Transaction, a: string)
    requires TxCodec.SignedView(t).Ok? && TxCodec.SignedView(t) == TxCodec.SignedView(u)
    ensures DebitOf(env, t, a) == DebitOf(env, u, a) && SendOf(env, t, a) == SendOf(env, u, a)
  {
  }

  /** The hypotheses of `HeaderCommitsToTxs`, from one set of accounts. */
  ghost predicate SameHeader(c: Config, a: Block, m: u64, b: Block, n: u64, st: State) {
    && BinaryEncodingActive(c.params, a.height) && TxRoot(c, a).Some? && TxRoot(c, b).Some?
    && TxCodec.BinaryHeader(a, TxRoot(c, a).value, m).Some?
    && TxCodec.BinaryHeader(a, TxRoot(c, a).value, m) == TxCodec.BinaryHeader(b, TxRoot(c, b).value, n)
    && Merkle.NoCollisions(c.env.sha, Hashed(c, a) + Hashed(c, b))
    && ApplyBlock(c, st, a).error.None? && ApplyBlock(c, st, b).error.None?
  }

  lemma SameHeaderSignsAlike(c: Config, a: Block, m: u64, b: Block, n: u64, st: State)
    requires SameHeader(c, a, m, b, n, st)
    ensures a.height == b.height && SignAlike(a.txs, b.txs)
  {
    HeaderCommitsToTxs(c, a, m, b, n, st, st);
    TxCodec.HeaderInjective(a, b, TxRoot(c, a).value, TxRoot(c, b).value, m, n);
    forall i | 0 <= i < |a.txs| ensures TxCodec.SignedView(a.txs[i]).Ok? { HashAt(c, a.txs, a.height, i); }
  }

  ghost predicate AlikeAt(st: State, st': State, a: string) { Lookup(st, a) == Lookup(st', a) }

  /** Both lists pay an address the same, modulo 2^64. */
  ghost predicate PaidAlike(x: seq<Transaction>, y: seq<Transaction>, a: string) {
    Credited(x, 0, a) % TWO64 == Credited(y, 0, a) % TWO64
  }

  /** One account after transactions that sign alike, from the same accounts. */
  lemma SameAccountIff(c: Config, st: State, x: seq<Transaction>, y: seq<Transaction>, h: u64, a: string)
    requires SignAlike(x, y) && ApplyTxs(c, st, x, 0, h).error.None? && ApplyTxs(c, st, y, 0, h).error.None?
    ensures AlikeAt(ApplyTxs(c, st, x, 0, h).state, ApplyTxs(c, st, y, 0, h).state, a) <==> PaidAlike(x, y, a)
  {
    TxsEffect(c, st, x, 0, h, a);
    TxsEffect(c, st, y, 0, h, a);
    SignAlikeTake(c.env, x, y, 0, a);
    MovedAlikeIff(Lookup(st, a), Lookup(ApplyTxs(c, st, x, 0, h).state, a), Lookup(ApplyTxs(c, st, y, 0, h).state, a),
                  Credited(x, 0, a), Credited(y, 0, a), Taken(c.env, x, 0, a), Sends(c.env, x, 0, a));
  }

  lemma BlockIsItsTxs(c: Config, st: State, b: Block)
    requires ApplyBlock(c, st, b).error.None?
    ensures ApplyBlock(c, st, b) == ApplyTxs(c, st, b.txs, 0, b.height)
  {
  }

  /** Accepted from the same accounts, two blocks with equal headers leave every account alike if and only if they pay
      every address string the same, modulo 2^64. */
  lemma SameHeaderSameAccountsIff(c: Config, a: Block, m: u64, b: Block, n: u64, st: State)
    requires SameHeader(c, a, m, b, n, st)
    ensures (forall x :: AlikeAt(ApplyBlock(c, st, a).state, ApplyBlock(c, st, b).state, x))
            <==> forall x :: PaidAlike(a.txs, b.txs, x)
  {
    SameHeaderSignsAlike(c, a, m, b, n, st);
    BlockIsItsTxs(c, st, a);
    BlockIsItsTxs(c, st, b);
    forall x
      ensures AlikeAt(ApplyBlock(c, st, a).state, ApplyBlock(c, st, b).state, x) <==> PaidAlike(a.txs, b.txs, x)
    {
      SameAccountIff(c, st, a.txs, b.txs, a.height, x);
    }
  }

  // ----- equal addresses -----

  ghost predicate PayAlike(x: seq<Transaction>, y: seq<Transaction>) {
    |x| == |y| && forall i :: 0 <= i < |x| ==> x[i].toAddress == y[i].toAddress
  }

  /** Transactions that sign and pay alike do the same to the accounts, whatever their signatures. */
  lemma {:induction false} SameEffect(c: Config, st: State, x: seq<Transaction>, y: seq<Transaction>, i: nat, h: u64)
    requires SignAlike(x, y) && PayAlike(x, y) && i <= |x|
    requires ApplyTxs(c, st, x, i, h).error.None? && ApplyTxs(c, st, y, i, h).error.None?
    ensures ApplyTxs(c, st, x, i, h) == ApplyTxs(c, st, y, i, h)
    decreases |x| - i
  {
    if i < |x| {
      assert TxCodec.SignedView(x[i]) == TxCodec.SignedView(y[i]) && x[i].toAddress == y[i].toAddress;
      OneEffect(c, st, x[i], y[i], i, h);
      SameEffect(c, ApplyTx(c, st, x[i], i, h).state, x, y, i + 1, h);
    }
  }

  lemma OneEffect(c: Config, st: State, t: Transaction, u: Transaction, i: nat, h: u64)
    requires TxCodec.SignedView(t).Ok? && TxCodec.SignedView(t) == TxCodec.SignedView(u) && t.toAddress == u.toAddress
    requires ApplyTx(c, st, t, i, h).error.None? && ApplyTx(c, st, u, i, h).error.None?
    ensures ApplyTx(c, st, t, i, h) == ApplyTx(c, st, u, i, h)
  {
  }

  /** Equal headers and equal address strings: the same accounts. */
  lemma SameHeaderSameState(c: Config, a: Block, m: u64, b: Block, n: u64, st: State)
    requires SameHeader(c, a, m, b, n, st) && PayAlike(a.txs, b.txs)
    ensures ApplyBlock(c, st, a) == ApplyBlock(c, st, b)
  {
    SameHeaderSignsAlike(c, a, m, b, n, st);
    SameEffect(c, st, a.txs, b.txs, 0, a.height);
  }

  // ----- where it goes wrong -----

  /** The block with its last transaction paid to another address string. */
  function Redirected(b: Block, other: string): Block
    requires b.txs != []
  {
    var n := |b.txs| - 1;
    b.(txs := b.txs[..n] + [b.txs[n].(toAddress := other)])
  }

  /** Two address strings for one 32-byte hash, which the binary encoding does not tell apart. */
  predicate SameHash(a: string, b: string) {
    TxCodec.DecodeHex32(a).Some? && TxCodec.DecodeHex32(a) == TxCodec.DecodeHex32(b)
  }

  lemma RedirectedTx(c: Config, t: Transaction, other: string, h: u64)
    requires BinaryEncodingActive(c.params, h) && SameHash(t.toAddress, other)
    ensures SigningPreimage(c, t.(toAddress := other), h) == SigningPreimage(c, t, h)
    ensures VerifyTx(c, t, h).None? && c.env.validAddress(other) ==> VerifyTx(c, t.(toAddress := other), h).None?
  {
    assert TxCodec.SignedView(t.(toAddress := other)) == TxCodec.SignedView(t);
  }

  lemma RedirectedHashes(c: Config, b: Block, other: string)
    requires b.txs != [] && BinaryEncodingActive(c.params, b.height) && SameHash(b.txs[|b.txs| - 1].toAddress, other)
    ensures SigningHashes(c, Redirected(b, other).txs, b.height) == SigningHashes(c, b.txs, b.height)
  {
    var n := |b.txs| - 1;
    var txs := Redirected(b, other).txs;
    RedirectedTx(c, b.txs[n], other, b.height);
    assert txs[..|txs| - 1] == b.txs[..n] && txs[|txs| - 1] == b.txs[n].(toAddress := other);
  }

  /** One root, hence one header at every nonce. */
  lemma RedirectedHeader(c: Config, b: Block, other: string, nonce: u64)
    requires b.txs != [] && BinaryEncodingActive(c.params, b.height) && SameHash(b.txs[|b.txs| - 1].toAddress, other)
    ensures TxRoot(c, Redirected(b, other)) == TxRoot(c, b)
    ensures TxRoot(c, b).Some? ==>
              TxCodec.BinaryHeader(Redirected(b, other), TxRoot(c, b).value, nonce)
              == TxCodec.BinaryHeader(b, TxRoot(c, b).value, nonce)
  {
    RedirectedHashes(c, b, other);
  }

  lemma RedirectedSeal(c: Config, json: (Block, u64) -> Option<Bytes>, b: Block, other: string, nonce: u64)
    requires b.txs != [] && BinaryEncodingActive(c.params, b.height) && SameHash(b.txs[|b.txs| - 1].toAddress, other)
    requires OwnHeaders(c, json)
    ensures HeaderOf(c, Redirected(b, other), nonce) == HeaderOf(c, b, nonce)
  {
    RedirectedHeader(c, Unsealed(b), other, nonce);
    assert Unsealed(Redirected(b, other)) == Redirected(Unsealed(b), other);
  }

  lemma RedirectedLast(c: Config, x: seq<Transaction>, y: seq<Transaction>, i: nat, other: string, h: u64)
    requires i + 1 == |x| == |y| && y[i] == x[i].(toAddress := other)
    requires BinaryEncodingActive(c.params, h) && SameHash(x[i].toAddress, other)
    requires c.env.validAddress(other) && CheckTxs(c, x, i, h).None?
    ensures CheckTxs(c, y, i, h).None?
  {
    var t := x[i];
    RedirectedTx(c, if t.chainId == 0 then t.(chainId := c.chainId) else t, other, h);
    assert CheckTxs(c, y, i + 1, h).None?;
  }

  lemma {:induction false} RedirectedTxs(c: Config, txs: seq<Transaction>, t: Transaction, other: string, i: nat,
                                         h: u64)
    requires i <= |txs| && BinaryEncodingActive(c.params, h) && SameHash(t.toAddress, other)
    requires c.env.validAddress(other) && CheckTxs(c, txs + [t], i, h).None?
    ensures CheckTxs(c, txs + [t.(toAddress := other)], i, h).None?
    decreases |txs| - i
  {
    var x, y := txs + [t], txs + [t.(toAddress := other)];
    if i < |txs| {
      assert x[i] == y[i];
      RedirectedTxs(c, txs, t, other, i + 1, h);
    } else {
      assert x[i] == t && y[i] == t.(toAddress := other);
      RedirectedLast(c, x, y, i, other, h);
    }
  }

  /** Blocks that differ in their transactions only, with the same header. */
  lemma AdmittedAlike(c: Config, b: Block, d: Block)
    requires d == b.(txs := d.txs) && HeaderOf(c, d, b.nonce) == HeaderOf(c, b, b.nonce)
    requires Admission(c, b).None? && CheckTxs(c, d.txs, 0, d.height).None?
    ensures Admission(c, d).None?
  {
  }

  lemma AdmittedTxs(c: Config, b: Block)
    requires Admission(c, b).None?
    ensures CheckTxs(c, b.txs, 0, b.height).None?
  {
  }

  lemma RedirectedCheck(c: Config, b: Block, other: string)
    requires b.txs != [] && BinaryEncodingActive(c.params, b.height) && SameHash(b.txs[|b.txs| - 1].toAddress, other)
    requires c.env.validAddress(other) && CheckTxs(c, b.txs, 0, b.height).None?
    ensures CheckTxs(c, Redirected(b, other).txs, 0, b.height).None?
  {
    var n := |b.txs| - 1;
    assert b.txs == b.txs[..n] + [b.txs[n]];
    RedirectedTxs(c, b.txs[..n], b.txs[n], other, 0, b.height);
  }

  /** The redirected block is admitted with the block. */
  lemma RedirectedIsAdmitted(c: Config, json: (Block, u64) -> Option<Bytes>, b: Block, other: string)
    requires b.txs != [] && BinaryEncodingActive(c.params, b.height) && SameHash(b.txs[|b.txs| - 1].toAddress, other)
    requires OwnHeaders(c, json) && c.env.validAddress(other) && Admission(c, b).None?
    ensures Admission(c, Redirected(b, other)).None?
  {
    RedirectedSeal(c, json, b, other, b.nonce);
    AdmittedTxs(c, b);
    RedirectedCheck(c, b, other);
    AdmittedAlike(c, b, Redirected(b, other));
  }

  lemma {:induction false} FeesOfLast(txs: seq<Transaction>, t: Transaction, u: Transaction, i: nat)
    requires i <= |txs| && t.kind == u.kind && t.fee == u.fee
    ensures FeesFrom(txs + [t], i) == FeesFrom(txs + [u], i)
    decreases |txs| - i
  {
    if i < |txs| {
      assert (txs + [t])[i] == (txs + [u])[i];
      FeesOfLast(txs, t, u, i + 1);
    } else {
      assert (txs + [t])[i] == t && (txs + [u])[i] == u;
      assert FeesFrom(txs + [t], i + 1) == 0 == FeesFrom(txs + [u], i + 1);
    }
  }

  lemma RedirectedPrecheck(c: Config, b: Block, other: string)
    requires |b.txs| > 1 && BlockPrecheck(c, b).None?
    requires c.params.maxBlockSize > 0 ==> c.env.blockSize(Redirected(b, other)) <= c.params.maxBlockSize
    ensures BlockPrecheck(c, Redirected(b, other)).None?
  {
    var n := |b.txs| - 1;
    assert b.txs == b.txs[..n] + [b.txs[n]];
    FeesOfLast(b.txs[..n], b.txs[n], b.txs[n].(toAddress := other), 1);
  }

  lemma RedirectedTransfer(c: Config, st: State, t: Transaction, other: string, i: nat, h: u64)
    requires i > 0 && BinaryEncodingActive(c.params, h) && SameHash(t.toAddress, other) && other != t.toAddress
    requires c.env.validAddress(other) && ApplyTx(c, st, t, i, h).error.None?
    ensures var u := t.(toAddress := other);
            && ApplyTx(c, st, u, i, h).error.None?
            && !AlikeAt(ApplyTx(c, st, t, i, h).state, ApplyTx(c, st, u, i, h).state, other)
  {
    var u := t.(toAddress := other);
    RedirectedTx(c, t, other, h);
    assert t.kind.Transfer? && VerifyTx(c, t, h).None?;
    RedirectedCredit(st, Sender(c.env, t), t, other);
  }

  lemma RedirectedCredit(st: State, from: string, t: Transaction, other: string)
    requires ApplyTransfer(st, from, t).error.None? && t.amount > 0 && other != t.toAddress
    ensures var u := t.(toAddress := other);
            ApplyTransfer(st, from, u).error.None?
                && !AlikeAt(ApplyTransfer(st, from, t).state, ApplyTransfer(st, from, u).state, other)
  {
    TransferMoves(st, from, t, other);
    TransferMoves(st, from, t.(toAddress := other), other);
  }

  lemma RedirectedHeaders(c: Config, b: Block, other: string)
    requires b.txs != [] && BinaryEncodingActive(c.params, b.height) && SameHash(b.txs[|b.txs| - 1].toAddress, other)
    ensures var d := Redirected(b, other);
            && TxRoot(c, d) == TxRoot(c, b)
            && (TxRoot(c, b).Some? ==> forall nonce :: TxCodec.BinaryHeader(d, TxRoot(c, b).value, nonce)
                                                       == TxCodec.BinaryHeader(b, TxRoot(c, b).value, nonce))
  {
    forall nonce: u64
      ensures TxRoot(c, Redirected(b, other)) == TxRoot(c, b)
      ensures TxRoot(c, b).Some? ==> TxCodec.BinaryHeader(Redirected(b, other), TxRoot(c, b).value, nonce)
                                     == TxCodec.BinaryHeader(b, TxRoot(c, b).value, nonce)
    {
      RedirectedHeader(c, b, other, nonce);
    }
    RedirectedHeader(c, b, other, 0);
  }

  lemma RedirectedTxsApply(c: Config, st: State, b: Block, other: string)
    requires |b.txs| > 1 && BinaryEncodingActive(c.params, b.height) && ApplyTxs(c, st, b.txs, 0, b.height).error.None?
    requires var to := b.txs[|b.txs| - 1].toAddress; SameHash(to, other) && other != to && c.env.validAddress(other)
    ensures var txs := Redirected(b, other).txs;
            && ApplyTxs(c, st, txs, 0, b.height).error.None?
            && !AlikeAt(ApplyTxs(c, st, b.txs, 0, b.height).state, ApplyTxs(c, st, txs, 0, b.height).state, other)
  {
    var n := |b.txs| - 1;
    AllButLast(b.txs);
    RedirectedLastApplies(c, st, b.txs[..n], b.txs[n], other, b.height);
  }

  lemma RedirectedLastApplies(c: Config, st: State, init: seq<Transaction>, t: Transaction, other: string, h: u64)
    requires init != [] && BinaryEncodingActive(c.params, h) && ApplyTxs(c, st, init + [t], 0, h).error.None?
    requires SameHash(t.toAddress, other) && other != t.toAddress && c.env.validAddress(other)
    ensures var txs := init + [t.(toAddress := other)];
            && ApplyTxs(c, st, txs, 0, h).error.None?
            && !AlikeAt(ApplyTxs(c, st, init + [t], 0, h).state, ApplyTxs(c, st, txs, 0, h).state, other)
  {
    ApplyAllButLast(c, st, init, t, 0, h);
    ApplyOneMore(c, st, init, t, 0, h);
    ApplyOneMore(c, st, init, t.(toAddress := other), 0, h);
    RedirectedTransfer(c, ApplyTxs(c, st, init, 0, h).state, t, other, |init|, h);
  }

  /** Paid to another valid address string for the same hash, the last transfer of a block keeps its signature, and the
      block its header; both blocks are accepted from the same accounts, and leave different ones. */
  lemma RedirectedBlock(c: Config, st: State, b: Block, other: string)
    requires |b.txs| > 1 && BinaryEncodingActive(c.params, b.height) && ApplyBlock(c, st, b).error.None?
    requires var to := b.txs[|b.txs| - 1].toAddress; SameHash(to, other) && other != to && c.env.validAddress(other)
    requires c.params.maxBlockSize > 0 ==> c.env.blockSize(Redirected(b, other)) <= c.params.maxBlockSize
    ensures var d := Redirected(b, other);
            && TxRoot(c, d) == TxRoot(c, b)
            && (TxRoot(c, b).Some? ==> forall nonce :: TxCodec.BinaryHeader(d, TxRoot(c, b).value, nonce)
                                                       == TxCodec.BinaryHeader(b, TxRoot(c, b).value, nonce))
            && ApplyBlock(c, st, d).error.None?
            && !AlikeAt(ApplyBlock(c, st, b).state, ApplyBlock(c, st, d).state, other)
  {
    RedirectedHeaders(c, b, other);
    RedirectedPrecheck(c, b, other);
    RedirectedTxsApply(c, st, b, other);
  }

  /** Such a string exists for every valid address with a letter in it: its capitals. */
  lemma CapitalsRedirect(c: Config, s: string)
    requires forall a :: c.env.validAddress(a) <==> Addresses.ValidAddress(c.env.sha, a)
    requires TxCodec.DecodeHex32(TxCodec.ADDRESS_PREFIX + s).Some? && s != Hex.Upper(s)
    ensures var addr, capital := TxCodec.ADDRESS_PREFIX + s, TxCodec.ADDRESS_PREFIX + Hex.Upper(s);
            SameHash(addr, capital) && capital != addr && (c.env.validAddress(addr) <==> c.env.validAddress(capital))
  {
    Addresses.CapitalsDecodeAlike(c.env.sha, s);
  }
}
