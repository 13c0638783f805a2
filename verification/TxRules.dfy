/** Transaction identity and the checks every transaction must pass under consensus. */
module TxRules {
  import opened Words
  import opened Types
  import TxCodec
  import Hex

  function SigningPreimage(c: Config, tx: Transaction, height: u64): Option<Bytes> {
    if BinaryEncodingActive(c.params, height) then
      match TxCodec.TxPreimage(tx)
      case Ok(b) => Some(b)
      case Err(_) => None
    else c.env.legacyPreimage(tx)
  }

  function TxId(c: Config, tx: Transaction, height: u64): Option<string> {
    match SigningPreimage(c, tx, height)
    case Some(pre) => Some(Hex.Encode(c.env.sha(pre)))
    case None => None
  }

  predicate KeyOk(tx: Transaction) {
    tx.fromPubKey.Some? && |tx.fromPubKey.value| == PUBLIC_KEY_SIZE
  }

  function FromAddress(env: Env, tx: Transaction): Option<string> {
    if tx.kind.Transfer? && KeyOk(tx) then Some(env.addressOf(tx.fromPubKey.value)) else None
  }

  predicate SentBy(env: Env, tx: Transaction, from: string) { FromAddress(env, tx) == Some(from) }

  /** The sender of a transfer with a well-formed key. */
  function Sender(env: Env, tx: Transaction): string
    requires tx.kind.Transfer? && KeyOk(tx)
  {
    env.addressOf(tx.fromPubKey.value)
  }

  /** VerifyForConsensus: `None` when the transaction is acceptable at `height`. */
  function VerifyTx(c: Config, tx: Transaction, height: u64): (e: Option<Error>)
    ensures e.None? ==> !tx.kind.OtherType? && tx.chainId != 0 && tx.amount != 0 && c.env.validAddress(tx.toAddress)
    ensures e.None? && tx.kind.Transfer? ==> KeyOk(tx) && tx.nonce != 0 && TxId(c, tx, height).Some?
    ensures e.None? && tx.kind.Coinbase? ==> tx.fee == 0 && tx.nonce == 0
  {
    match tx.kind
    case Coinbase =>
      if tx.chainId == 0 then Some(MissingChainId)
      else if tx.amount == 0 then Some(ZeroAmount)
      else if !c.env.validAddress(tx.toAddress) then Some(BadAddress)
      else if tx.fromPubKey.Some? || tx.signature.Some? || tx.nonce != 0 || tx.fee != 0 then
        Some(CoinbaseHasTransferFields)
      else None
    case Transfer =>
      if tx.amount == 0 then Some(ZeroAmount)
      else if !c.env.validAddress(tx.toAddress) then Some(BadAddress)
      else if !KeyOk(tx) then Some(BadPubKeyLength)
      else if tx.signature.None? || |tx.signature.value| != SIGNATURE_SIZE then Some(BadSignatureLength)
      else if tx.nonce == 0 then Some(ZeroNonce)
      else if tx.chainId == 0 then Some(MissingChainId)
      else
        var pre := SigningPreimage(c, tx, height);
        if pre.None? then Some(EncodingFailed)
        else if !c.env.sigOk(tx.fromPubKey.value, c.env.sha(pre.value), tx.signature.value) then Some(BadSignature)
        else None
    case OtherType(_) => Some(UnknownTxType)
  }

  // ----- what the checks mean -----

  /** The bytes a transaction is signed over at a height. */
  ghost predicate SignedOver(c: Config, tx: Transaction, height: u64, pre: Bytes) {
    if c.params.binaryEncodingEnable && height >= c.params.binaryEncodingActivationHeight
    then TxCodec.TxPreimage(tx) == Ok(pre)
    else c.env.legacyPreimage(tx) == Some(pre)
  }

  /** The transaction carries a key, and a signature by it of the hash of those bytes. */
  ghost predicate Signed(c: Config, tx: Transaction, height: u64) {
    && tx.fromPubKey.Some? && |tx.fromPubKey.value| == 32
    && tx.signature.Some? && |tx.signature.value| == 64
    && exists pre :: SignedOver(c, tx, height, pre)
                     && c.env.sigOk(tx.fromPubKey.value, c.env.sha(pre), tx.signature.value)
  }

  /** What a transaction must be to be accepted at a height. */
  ghost predicate Acceptable(c: Config, tx: Transaction, height: u64) {
    && tx.chainId > 0 && tx.amount > 0 && c.env.validAddress(tx.toAddress)
    && match tx.kind
       case Coinbase => tx.fromPubKey.None? && tx.signature.None? && tx.nonce == 0 && tx.fee == 0
       case Transfer => tx.nonce > 0 && Signed(c, tx, height)
       case OtherType(_) => false
  }

  lemma VerifyTxIff(c: Config, tx: Transaction, height: u64)
    ensures VerifyTx(c, tx, height).None? <==> Acceptable(c, tx, height)
  {
    if VerifyTx(c, tx, height).None? && tx.kind.Transfer? {
      assert SignedOver(c, tx, height, SigningPreimage(c, tx, height).value);
    }
  }
}
