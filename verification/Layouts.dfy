/** Where each field of a byte form stands: what a reader at fixed offsets finds in it. */
module Layouts {
  import opened Words
  import opened Types
  import opened Encoding
  import opened TxCodec
  import opened RulesHash

  /** A little-endian number. */
  ghost function FromLE(s: Bytes): nat { if s == [] then 0 else s[0] + 256 * FromLE(s[1..]) }

  lemma {:induction false} LEValue(n: int, k: nat)
    ensures FromLE(LE(n, k)) == n % Pow256(k)
    decreases k
  {
    if k > 0 {
      LEValue(n / 256, k - 1);
      ModSplit(n, Pow256(k - 1));
      assert LE(n, k)[1..] == LE(n / 256, k - 1);
    }
  }

  /** Field `k` of a record stands behind the fields before it. */
  lemma FieldAt(f: seq<Bytes>, k: nat, at: nat, rest: Bytes)
    requires k < |f| && at == |Flatten(f[..k])|
    ensures var bytes := Flatten(f) + rest;
            && at + |f[k]| <= |bytes| && bytes[at..at + |f[k]|] == f[k] && |Flatten(f[..k + 1])| == at + |f[k]|
  {
    assert f[..k + 1][..k] == f[..k] && f[..k + 1][k] == f[k];
    FlattenAppend(f[..k + 1], f[k + 1..]);
    assert f == f[..k + 1] + f[k + 1..];
    var bytes := Flatten(f) + rest;
    assert bytes == Flatten(f[..k]) + f[k] + Flatten(f[k + 1..]) + rest;
  }

  /** The number in bytes `at` to `at + width`. */
  ghost predicate NumberAt(s: Bytes, at: nat, width: nat, n: int) {
    at + width <= |s| && FromLE(s[at..at + width]) == n % Pow256(width)
  }

  ghost predicate BytesAt(s: Bytes, at: nat, b: Bytes) { at + |b| <= |s| && s[at..at + |b|] == b }

  lemma NumberFieldAt(f: seq<Bytes>, k: nat, at: nat, rest: Bytes, n: int, width: nat)
    requires k < |f| && at == |Flatten(f[..k])| && f[k] == LE(n, width)
    ensures NumberAt(Flatten(f) + rest, at, width, n) && |Flatten(f[..k + 1])| == at + width
  {
    FieldAt(f, k, at, rest);
    LEValue(n, width);
  }

  lemma BytesFieldAt(f: seq<Bytes>, k: nat, at: nat, rest: Bytes)
    requires k < |f| && at == |Flatten(f[..k])|
    ensures BytesAt(Flatten(f) + rest, at, f[k]) && |Flatten(f[..k + 1])| == at + |f[k]|
  {
    FieldAt(f, k, at, rest);
  }

  // ----- signing bytes -----

  lemma TransferHead(v: Signed, rest: Bytes)
    requires v.SignedTransfer? && |v.pub| == 32
    ensures var f := FixedFields(v); var s := Flatten(f) + rest;
            && BytesAt(s, 0, [1]) && BytesAt(s, 1, [1]) && NumberAt(s, 2, 8, v.chainId)
            && BytesAt(s, 10, v.pub) && BytesAt(s, 42, v.to) && |Flatten(f[..5])| == 74
  {
    var f := FixedFields(v);
    assert Flatten(f[..0]) == [];
    BytesFieldAt(f, 0, 0, rest);
    BytesFieldAt(f, 1, 1, rest);
    NumberFieldAt(f, 2, 2, rest, v.chainId, 8);
    BytesFieldAt(f, 3, 10, rest);
    BytesFieldAt(f, 4, 42, rest);
  }

  lemma TransferTail(v: Signed, rest: Bytes)
    requires v.SignedTransfer? && |Flatten(FixedFields(v)[..5])| == 74
    ensures var s := Flatten(FixedFields(v)) + rest;
            && NumberAt(s, 74, 8, v.amount) && NumberAt(s, 82, 8, v.nonce) && NumberAt(s, 90, 8, v.fee)
            && |s| >= 98 && s[98..] == rest
  {
    var f := FixedFields(v);
    NumberFieldAt(f, 5, 74, rest, v.amount, 8);
    NumberFieldAt(f, 6, 82, rest, v.nonce, 8);
    NumberFieldAt(f, 7, 90, rest, v.fee, 8);
    assert f[..8] == f;
  }

  /** A transfer is signed over version, type, chain id, key, recipient, amount, nonce, fee and data. */
  lemma TransferLayout(tx: Transaction)
    requires tx.kind.Transfer? && TxPreimage(tx).Ok?
    ensures var s := TxPreimage(tx).value;
            && BytesAt(s, 0, [1]) && BytesAt(s, 1, [1]) && NumberAt(s, 2, 8, tx.chainId) && tx.fromPubKey.Some?
            && BytesAt(s, 10, tx.fromPubKey.value) && |tx.fromPubKey.value| == 32
            && DecodeHex32(tx.toAddress).Some? && BytesAt(s, 42, DecodeHex32(tx.toAddress).value)
            && NumberAt(s, 74, 8, tx.amount) && NumberAt(s, 82, 8, tx.nonce) && NumberAt(s, 90, 8, tx.fee)
            && ReadUleb(s[98..]) == Some((|tx.data|, tx.data))
  {
    var v := SignedView(tx).value;
    var rest := Uleb(|v.data|) + v.data;
    assert TxPreimage(tx).value == Flatten(FixedFields(v)) + rest;
    TransferHead(v, rest);
    TransferTail(v, rest);
    UlebRoundTrip(|v.data|, v.data);
  }

  lemma CoinbaseFields(v: Signed, rest: Bytes)
    requires v.SignedCoinbase?
    ensures var s := Flatten(FixedFields(v)) + rest;
            && BytesAt(s, 0, [1]) && BytesAt(s, 1, [0]) && NumberAt(s, 2, 8, v.chainId) && BytesAt(s, 10, v.to)
            && NumberAt(s, 42, 8, v.amount) && |s| >= 50 && s[50..] == rest
  {
    var f := FixedFields(v);
    assert Flatten(f[..0]) == [];
    BytesFieldAt(f, 0, 0, rest);
    BytesFieldAt(f, 1, 1, rest);
    NumberFieldAt(f, 2, 2, rest, v.chainId, 8);
    BytesFieldAt(f, 3, 10, rest);
    NumberFieldAt(f, 4, 42, rest, v.amount, 8);
    assert f[..5] == f;
  }

  /** A coinbase is hashed over version, type, chain id, recipient, amount and data. */
  lemma CoinbaseLayout(tx: Transaction)
    requires tx.kind.Coinbase? && TxPreimage(tx).Ok?
    ensures var s := TxPreimage(tx).value;
            && BytesAt(s, 0, [1]) && BytesAt(s, 1, [0]) && NumberAt(s, 2, 8, tx.chainId)
            && DecodeHex32(tx.toAddress).Some? && BytesAt(s, 10, DecodeHex32(tx.toAddress).value)
            && NumberAt(s, 42, 8, tx.amount) && ReadUleb(s[50..]) == Some((|tx.data|, tx.data))
  {
    var v := SignedView(tx).value;
    var rest := Uleb(|v.data|) + v.data;
    assert TxPreimage(tx).value == Flatten(FixedFields(v)) + rest;
    CoinbaseFields(v, rest);
    UlebRoundTrip(|v.data|, v.data);
  }

  /** What can be signed: a coinbase or a transfer with a key, a chain id, and an address that names 32 bytes. */
  lemma SignableIff(tx: Transaction)
    ensures TxPreimage(tx).Ok? <==>
            && !tx.kind.OtherType? && tx.chainId > 0 && DecodeHex32(tx.toAddress).Some?
            && (tx.kind.Transfer? ==> tx.fromPubKey.Some? && |tx.fromPubKey.value| == 32)
  {
  }

  // ----- headers -----

  lemma HeaderHead(f: seq<Bytes>, b: Block, root: Digest, miner: Digest, nonce: u64)
    requires |b.prevHash| in {0, 32} && f == HeaderFields(b, root, miner, nonce)
    ensures var s := Flatten(f) + [];
            && BytesAt(s, 0, [1]) && NumberAt(s, 1, 4, b.version) && NumberAt(s, 5, 8, b.height)
            && NumberAt(s, 13, 8, b.timestamp)
            && BytesAt(s, 21, if b.prevHash == [] then seq(32, _ => 0) else b.prevHash)
            && |Flatten(f[..5])| == 53
  {
    assert Flatten(f[..0]) == [];
    BytesFieldAt(f, 0, 0, []);
    NumberFieldAt(f, 1, 1, [], b.version, 4);
    NumberFieldAt(f, 2, 5, [], b.height, 8);
    NumberFieldAt(f, 3, 13, [], b.timestamp, 8);
    BytesFieldAt(f, 4, 21, []);
  }

  lemma HeaderTail(f: seq<Bytes>, b: Block, root: Digest, miner: Digest, nonce: u64)
    requires |b.prevHash| in {0, 32} && f == HeaderFields(b, root, miner, nonce) && |Flatten(f[..5])| == 53
    ensures var s := Flatten(f) + [];
            && BytesAt(s, 53, root) && NumberAt(s, 85, 4, b.bits) && BytesAt(s, 89, miner) && NumberAt(s, 121, 8, nonce)
            && |s| == 129
  {
    BytesFieldAt(f, 5, 53, []);
    NumberFieldAt(f, 6, 85, [], b.bits, 4);
    BytesFieldAt(f, 7, 89, []);
    NumberFieldAt(f, 8, 121, [], nonce, 8);
    assert f[..9] == f;
  }

  /** A header is format version, version, height, time, parent, transaction root, bits, miner and nonce: 129 bytes. */
  lemma HeaderLayout(b: Block, root: Digest, nonce: u64)
    requires BinaryHeader(b, root, nonce).Some?
    ensures var s := BinaryHeader(b, root, nonce).value;
            && |s| == 129 && BytesAt(s, 0, [1]) && NumberAt(s, 1, 4, b.version) && NumberAt(s, 5, 8, b.height)
            && NumberAt(s, 13, 8, b.timestamp)
            && BytesAt(s, 21, if b.prevHash == [] then seq(32, _ => 0) else b.prevHash)
            && BytesAt(s, 53, root) && NumberAt(s, 85, 4, b.bits)
            && DecodeHex32(b.miner).Some? && BytesAt(s, 89, DecodeHex32(b.miner).value) && NumberAt(s, 121, 8, nonce)
  {
    var miner := DecodeHex32(b.miner).value;
    var f := HeaderFields(b, root, miner, nonce);
    assert BinaryHeader(b, root, nonce).value == Flatten(f) + [];
    HeaderHead(f, b, root, miner, nonce);
    HeaderTail(f, b, root, miner, nonce);
  }

  /** What has a header: a positive time, a parent and a hash of 32 bytes or none, and a miner that names 32 bytes. */
  lemma HeaderedIff(b: Block, root: Digest, nonce: u64)
    ensures BinaryHeader(b, root, nonce).Some? <==>
            && b.timestamp > 0 && |b.prevHash| in {0, 32} && |b.hash| in {0, 32} && DecodeHex32(b.miner).Some?
  {
  }

  // ----- rules -----

  lemma TimingHead(p: ConsensusParams, rest: Bytes)
    ensures var f := TimingFields(p); var s := Flatten(f) + rest;
            && BytesAt(s, 0, [3]) && BytesAt(s, 1, if p.difficultyEnable then [1] else [0])
            && NumberAt(s, 2, 8, p.targetBlockTime) && NumberAt(s, 10, 4, p.difficultyWindow)
            && NumberAt(s, 14, 4, p.difficultyMaxStep) && |Flatten(f[..5])| == 18
  {
    var f := TimingFields(p);
    assert Flatten(f[..0]) == [];
    BytesFieldAt(f, 0, 0, rest);
    BytesFieldAt(f, 1, 1, rest);
    NumberFieldAt(f, 2, 2, rest, p.targetBlockTime, 8);
    NumberFieldAt(f, 3, 10, rest, p.difficultyWindow, 4);
    NumberFieldAt(f, 4, 14, rest, p.difficultyMaxStep, 4);
  }

  lemma TimingTail(p: ConsensusParams, rest: Bytes)
    requires |Flatten(TimingFields(p)[..5])| == 18
    ensures var s := Flatten(TimingFields(p)) + rest;
            && NumberAt(s, 18, 4, p.minDifficultyBits) && NumberAt(s, 22, 4, p.maxDifficultyBits)
            && NumberAt(s, 26, 4, p.genesisDifficultyBits) && NumberAt(s, 30, 4, p.medianTimePastWindow)
            && NumberAt(s, 34, 8, p.maxTimeDrift) && |s| == 42 + |rest|
  {
    var f := TimingFields(p);
    NumberFieldAt(f, 5, 18, rest, p.minDifficultyBits, 4);
    NumberFieldAt(f, 6, 22, rest, p.maxDifficultyBits, 4);
    NumberFieldAt(f, 7, 26, rest, p.genesisDifficultyBits, 4);
    NumberFieldAt(f, 8, 30, rest, p.medianTimePastWindow, 4);
    NumberFieldAt(f, 9, 34, rest, p.maxTimeDrift, 8);
    assert f[..10] == f;
  }

  lemma FormatHead(p: ConsensusParams)
    ensures var f := FormatFields(p); var s := Flatten(f) + [];
            && BytesAt(s, 0, if p.merkleEnable then [1] else [0]) && NumberAt(s, 1, 8, p.merkleActivationHeight)
            && BytesAt(s, 9, if p.binaryEncodingEnable then [1] else [0])
            && NumberAt(s, 10, 8, p.binaryEncodingActivationHeight) && NumberAt(s, 18, 8, p.maxBlockSize)
            && |Flatten(f[..5])| == 26
  {
    var f := FormatFields(p);
    assert Flatten(f[..0]) == [];
    BytesFieldAt(f, 0, 0, []);
    NumberFieldAt(f, 1, 1, [], p.merkleActivationHeight, 8);
    BytesFieldAt(f, 2, 9, []);
    NumberFieldAt(f, 3, 10, [], p.binaryEncodingActivationHeight, 8);
    NumberFieldAt(f, 4, 18, [], p.maxBlockSize, 8);
  }

  lemma FormatTail(p: ConsensusParams)
    requires |Flatten(FormatFields(p)[..5])| == 26
    ensures var s := Flatten(FormatFields(p)) + [];
            && NumberAt(s, 26, 8, p.policy.initialBlockReward) && NumberAt(s, 34, 8, p.policy.halvingInterval)
            && BytesAt(s, 42, [p.policy.minerFeeShare]) && NumberAt(s, 43, 8, p.policy.tailEmission) && |s| == 51
  {
    var f := FormatFields(p);
    NumberFieldAt(f, 5, 26, [], p.policy.initialBlockReward, 8);
    NumberFieldAt(f, 6, 34, [], p.policy.halvingInterval, 8);
    BytesFieldAt(f, 7, 42, []);
    NumberFieldAt(f, 8, 43, [], p.policy.tailEmission, 8);
    assert f[..9] == f;
  }

  /** The rules are 42 bytes of difficulty and time, then 51 of activation, size and monetary policy. */
  lemma RulesLayout(p: ConsensusParams)
    ensures |Flatten(RuleFields(p))| == 93
    ensures var s, t := Flatten(RuleFields(p)), Flatten(RuleFields(p))[42..];
            && BytesAt(s, 0, [3]) && BytesAt(s, 1, if p.difficultyEnable then [1] else [0])
            && NumberAt(s, 2, 8, p.targetBlockTime) && NumberAt(s, 10, 4, p.difficultyWindow)
            && NumberAt(s, 14, 4, p.difficultyMaxStep) && NumberAt(s, 18, 4, p.minDifficultyBits)
            && NumberAt(s, 22, 4, p.maxDifficultyBits) && NumberAt(s, 26, 4, p.genesisDifficultyBits)
            && NumberAt(s, 30, 4, p.medianTimePastWindow) && NumberAt(s, 34, 8, p.maxTimeDrift)
            && BytesAt(t, 0, if p.merkleEnable then [1] else [0]) && NumberAt(t, 1, 8, p.merkleActivationHeight)
            && BytesAt(t, 9, if p.binaryEncodingEnable then [1] else [0])
            && NumberAt(t, 10, 8, p.binaryEncodingActivationHeight) && NumberAt(t, 18, 8, p.maxBlockSize)
            && NumberAt(t, 26, 8, p.policy.initialBlockReward) && NumberAt(t, 34, 8, p.policy.halvingInterval)
            && BytesAt(t, 42, [p.policy.minerFeeShare]) && NumberAt(t, 43, 8, p.policy.tailEmission)
  {
    var timing, format := Flatten(TimingFields(p)), Flatten(FormatFields(p));
    FlattenAppend(TimingFields(p), FormatFields(p));
    TimingHead(p, format);
    TimingTail(p, format);
    FormatHead(p);
    FormatTail(p);
    assert format + [] == format && (timing + format)[42..] == format;
  }
}
