/** The binary signing preimage of a transaction and the binary proof-of-work header. */
module TxCodec {
  import opened Words
  import opened Types
  import opened Encoding
  import Hex

  const ADDRESS_PREFIX := "NEO"

  function TrimPrefix(s: string): string {
    if |s| >= 3 && s[..3] == ADDRESS_PREFIX then s[3..] else s
  }

  /** The 32 bytes an address names: a bare hash, or version byte, hash and checksum. */
  function DecodeHex32(addr: string): Option<Digest> {
    match Hex.Decode(TrimPrefix(addr))
    case Some(b) => if |b| == 37 then Some(b[1..33]) else if |b| == 32 then Some(b) else None
    case None => None
  }

  /** What a signature commits to. */
  datatype Signed =
    | SignedCoinbase(chainId: u64, to: Digest, amount: u64, data: Bytes)
    | SignedTransfer(chainId: u64, pub: Bytes, to: Digest, amount: u64, nonce: u64, fee: u64, data: Bytes)

  function SignedView(tx: Transaction): (r: Result<Signed, Error>)
    ensures r.Ok? && tx.kind.Transfer? ==> r.value.SignedTransfer? && |r.value.pub| == PUBLIC_KEY_SIZE
  {
    if tx.kind.OtherType? || tx.chainId == 0 then Err(EncodingFailed)
    else if tx.kind.Transfer? && (tx.fromPubKey.None? || |tx.fromPubKey.value| != PUBLIC_KEY_SIZE) then
      Err(EncodingFailed)
    else
      match DecodeHex32(tx.toAddress)
      case None => Err(EncodingFailed)
      case Some(to) =>
        if tx.kind.Coinbase? then Ok(SignedCoinbase(tx.chainId, to, tx.amount, tx.data))
        else Ok(SignedTransfer(tx.chainId, tx.fromPubKey.value, to, tx.amount, tx.nonce, tx.fee, tx.data))
  }

  /** The fixed-width fields, in writing order. */
  function FixedFields(v: Signed): seq<Bytes> {
    match v
    case SignedCoinbase(chainId, to, amount, _) =>
      [[1], [0], LE(chainId, 8), to, LE(amount, 8)]
    case SignedTransfer(chainId, pub, to, amount, nonce, fee, _) =>
      [[1], [1], LE(chainId, 8), pub, to, LE(amount, 8), LE(nonce, 8), LE(fee, 8)]
  }

  function SignedBytes(v: Signed): Bytes {
    Flatten(FixedFields(v)) + Uleb(|v.data|) + v.data
  }

  function TxPreimage(tx: Transaction): Result<Bytes, Error> {
    match SignedView(tx)
    case Ok(v) => Ok(SignedBytes(v))
    case Err(e) => Err(e)
  }

  method TxSigningPreimage(tx: Transaction) returns (r: Result<Bytes, Error>)
    requires |tx.data| < TWO63
    ensures r == TxPreimage(tx)
  {
    ghost var f := if SignedView(tx).Ok? then FixedFields(SignedView(tx).value) else [];
    var buf: Bytes := [1];
    var txType: u8;
    match tx.kind {
      case Coinbase => txType := 0;
      case Transfer => txType := 1;
      case OtherType(_) => return Err(EncodingFailed);
    }
    buf := buf + [txType];
    if tx.chainId == 0 { return Err(EncodingFailed); }
    buf := buf + LE(tx.chainId, 8);
    match tx.kind {
      case Coinbase =>
        var to := DecodeHex32(tx.toAddress);
        if to == None { return Err(EncodingFailed); }
        HeadBytes(f);
        buf := WriteField(buf, to.value, f, 3);
        buf := WriteField(buf, LE(tx.amount, 8), f, 4);
        FlattenWhole(f, 5);
      case Transfer =>
        if tx.fromPubKey == None || |tx.fromPubKey.value| != PUBLIC_KEY_SIZE { return Err(EncodingFailed); }
        var to := DecodeHex32(tx.toAddress);
        if to == None { return Err(EncodingFailed); }
        HeadBytes(f);
        buf := WriteField(buf, tx.fromPubKey.value, f, 3);
        buf := WriteField(buf, to.value, f, 4);
        buf := WriteField(buf, LE(tx.amount, 8), f, 5);
        buf := WriteField(buf, LE(tx.nonce, 8), f, 6);
        buf := WriteField(buf, LE(tx.fee, 8), f, 7);
        FlattenWhole(f, 8);
    }
    buf := WriteUleb128(buf, |tx.data|);
    buf := buf + tx.data;
    return Ok(buf);
  }

  lemma HeadBytes(f: seq<Bytes>)
    requires |f| >= 3
    ensures FlattenTo(f, 3) == f[0] + f[1] + f[2]
  {
    assert FlattenTo(f, 1) == f[0];
    assert FlattenTo(f, 2) == f[0] + f[1];
  }

  lemma TypeByte(v: Signed)
    ensures |SignedBytes(v)| >= 2 && SignedBytes(v)[1] == if v.SignedCoinbase? then 0 else 1
  {
    var f := FixedFields(v);
    HeadBytes(f);
    FlattenWhole(f, 3);
    FlattenAppend(f[..3], f[3..]);
    assert f == f[..3] + f[3..];
  }

  lemma VersionByte(v: Signed)
    ensures |SignedBytes(v)| > 0 && SignedBytes(v)[0] == 1
  {
    var f := FixedFields(v);
    HeadBytes(f);
    FlattenWhole(f, 3);
    FlattenAppend(f[..3], f[3..]);
    assert f == f[..3] + f[3..];
  }

  lemma SameKind(v: Signed, w: Signed, r: Bytes, s: Bytes)
    requires SignedBytes(v) + r == SignedBytes(w) + s
    ensures v.SignedCoinbase? == w.SignedCoinbase?
  {
    TypeByte(v);
    TypeByte(w);
    assert (SignedBytes(v) + r)[1] == SignedBytes(v)[1] && (SignedBytes(w) + s)[1] == SignedBytes(w)[1];
  }

  ghost predicate KeySized(v: Signed) {
    v.SignedTransfer? ==> |v.pub| == PUBLIC_KEY_SIZE
  }

  /** Signing bytes followed by anything at all read back as one signed view only. */
  lemma SignedBytesUniquelyDecodable(v: Signed, w: Signed, r: Bytes, s: Bytes)
    requires KeySized(v) && KeySized(w)
    requires SignedBytes(v) + r == SignedBytes(w) + s
    ensures v == w && r == s
  {
    SameKind(v, w, r, s);
    var f, g := FixedFields(v), FixedFields(w);
    var x := Uleb(|v.data|) + (v.data + r);
    var y := Uleb(|w.data|) + (w.data + s);
    assert SignedBytes(v) + r == Flatten(f) + x;
    assert SignedBytes(w) + s == Flatten(g) + y;
    FlattenInjective(f, g, x, y);
    UlebPrefixFree(|v.data|, |w.data|, v.data + r, w.data + s);
    SplitConcat(v.data, r, w.data, s);
    FieldsDetermine(v, w);
  }

  lemma FieldsDetermine(v: Signed, w: Signed)
    requires v.SignedCoinbase? == w.SignedCoinbase?
    requires FixedFields(v) == FixedFields(w) && v.data == w.data
    ensures v == w
  {
    var f, g := FixedFields(v), FixedFields(w);
    LE64(v.chainId, w.chainId);
    LE64(v.amount, w.amount);
    assert f[2] == g[2] && f[3] == g[3] && f[4] == g[4];
    if v.SignedTransfer? {
      assert f[5] == g[5] && f[6] == g[6] && f[7] == g[7];
      LE64(v.nonce, w.nonce);
      LE64(v.fee, w.fee);
    }
  }

  /** Two transactions with the same binary preimage agree on everything they sign. */
  lemma TxPreimageInjective(a: Transaction, b: Transaction)
    requires TxPreimage(a).Ok? && TxPreimage(a) == TxPreimage(b)
    ensures SignedView(a) == SignedView(b)
  {
    assert TxPreimage(a).value + [] == TxPreimage(b).value + [];
    SignedBytesUniquelyDecodable(SignedView(a).value, SignedView(b).value, [], []);
  }

  /** The binary header, given the transaction root of the block. */
  function HeaderFields(b: Block, root: Digest, miner: Digest, nonce: u64): seq<Bytes>
    requires |b.prevHash| == 0 || |b.prevHash| == 32
  {
    [[1], LE(b.version, 4), LE(b.height, 8), LE(b.timestamp, 8),
     (if |b.prevHash| == 32 then b.prevHash else seq(32, _ => 0)),
     root, LE(b.bits, 4), miner, LE(nonce, 8)]
  }

  /** The binary header, or `None` when a field is out of form. */
  function BinaryHeader(b: Block, root: Digest, nonce: u64): Option<Bytes> {
    if b.timestamp <= 0 || |b.prevHash| !in {0, 32} || |b.hash| !in {0, 32} || DecodeHex32(b.miner).None? then None
    else Some(Flatten(HeaderFields(b, root, DecodeHex32(b.miner).value, nonce)))
  }

  method BlockHeaderPreimage(b: Block, root: Digest, nonce: u64) returns (r: Result<Bytes, Error>)
    ensures r == match BinaryHeader(b, root, nonce) case Some(h) => Ok(h) case None => Err(HeaderFailed)
  {
    if b.timestamp <= 0 { return Err(HeaderFailed); }
    if |b.prevHash| != 0 && |b.prevHash| != 32 { return Err(HeaderFailed); }
    if |b.hash| != 0 && |b.hash| != 32 { return Err(HeaderFailed); }
    var miner := DecodeHex32(b.miner);
    if miner == None { return Err(HeaderFailed); }
    var prev: Bytes := seq(32, _ => 0);
    if |b.prevHash| == 32 { prev := b.prevHash; }
    ghost var f := HeaderFields(b, root, miner.value, nonce);
    var buf: Bytes := [];
    buf := WriteField(buf, [1], f, 0);
    buf := WriteField(buf, LE(b.version, 4), f, 1);
    buf := WriteField(buf, LE(b.height, 8), f, 2);
    buf := WriteField(buf, LE(b.timestamp, 8), f, 3);
    buf := WriteField(buf, prev, f, 4);
    buf := WriteField(buf, root, f, 5);
    buf := WriteField(buf, LE(b.bits, 4), f, 6);
    buf := WriteField(buf, miner.value, f, 7);
    buf := WriteField(buf, LE(nonce, 8), f, 8);
    FlattenWhole(f, 9);
    return Ok(buf);
  }

  /** A binary header determines every field hashed into it; a missing parent reads as zeros. */
  lemma HeaderInjective(a: Block, b: Block, ra: Digest, rb: Digest, na: u64, nb: u64)
    requires BinaryHeader(a, ra, na).Some? && BinaryHeader(a, ra, na) == BinaryHeader(b, rb, nb)
    ensures a.version == b.version && a.height == b.height && a.timestamp == b.timestamp
    ensures |a.prevHash| == |b.prevHash| ==> a.prevHash == b.prevHash
    ensures ra == rb && a.bits == b.bits && DecodeHex32(a.miner) == DecodeHex32(b.miner) && na == nb
  {
    var f, g := HeaderFields(a, ra, DecodeHex32(a.miner).value, na),
        HeaderFields(b, rb, DecodeHex32(b.miner).value, nb);
    assert Flatten(f) + [] == Flatten(g) + [];
    FlattenInjective(f, g, [], []);
    HeaderFieldsDetermine(a, b, ra, rb, DecodeHex32(a.miner).value, DecodeHex32(b.miner).value, na, nb);
  }

  lemma HeaderFieldsDetermine(a: Block, b: Block, ra: Digest, rb: Digest, ma: Digest, mb: Digest, na: u64, nb: u64)
    requires |a.prevHash| in {0, 32} && |b.prevHash| in {0, 32}
    requires HeaderFields(a, ra, ma, na) == HeaderFields(b, rb, mb, nb)
    ensures a.version == b.version && a.height == b.height && a.timestamp == b.timestamp
    ensures |a.prevHash| == |b.prevHash| ==> a.prevHash == b.prevHash
    ensures ra == rb && a.bits == b.bits && ma == mb && na == nb
  {
    var f, g := HeaderFields(a, ra, ma, na), HeaderFields(b, rb, mb, nb);
    assert f[1] == g[1] && f[2] == g[2] && f[3] == g[3] && f[4] == g[4];
    assert f[5] == g[5] && f[6] == g[6] && f[7] == g[7] && f[8] == g[8];
    LE32(a.version, b.version);
    LE64(a.height, b.height);
    LEI64(a.timestamp, b.timestamp);
    LE32(a.bits, b.bits);
    LE64(na, nb);
  }

  lemma HeaderOpensWithVersion(b: Block, root: Digest, nonce: u64)
    requires BinaryHeader(b, root, nonce).Some?
    ensures |BinaryHeader(b, root, nonce).value| > 0 && BinaryHeader(b, root, nonce).value[0] == 1
  {
    var f := HeaderFields(b, root, DecodeHex32(b.miner).value, nonce);
    assert f == [f[0]] + f[1..];
    FlattenAppend([f[0]], f[1..]);
    assert Flatten([f[0]]) == [1];
  }
}
