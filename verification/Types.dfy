/** The ledger's values: transactions, blocks, accounts, consensus parameters and the
    outside functions (cryptography, JSON) that the rules call. */
module Types {
  import opened Words

  datatype TxType = Coinbase | Transfer | OtherType(name: string)

  /** `None` stands for a nil slice; the coinbase rules tell nil from empty. */
  datatype Transaction = Transaction(
    kind: TxType,
    chainId: u64,
    fromPubKey: Option<Bytes>,
    toAddress: string,
    amount: u64,
    fee: u64,
    nonce: u64,
    data: Bytes,
    signature: Option<Bytes>)

  datatype Block = Block(
    version: u32,
    height: u64,
    timestamp: i64,
    prevHash: Bytes,
    nonce: u64,
    bits: u32,
    miner: string,
    txs: seq<Transaction>,
    hash: Bytes)

  datatype Account = Account(balance: u64, nonce: u64)

  type State = map<string, Account>

  datatype MonetaryPolicy = MonetaryPolicy(
    initialBlockReward: u64,
    halvingInterval: u64,
    minerFeeShare: u8,
    tailEmission: u64)

  /** `targetBlockTime` is in nanoseconds, `maxTimeDrift` in seconds. */
  datatype ConsensusParams = ConsensusParams(
    difficultyEnable: bool,
    targetBlockTime: i64,
    difficultyWindow: i64,
    difficultyMaxStep: u32,
    minDifficultyBits: u32,
    maxDifficultyBits: u32,
    genesisDifficultyBits: u32,
    medianTimePastWindow: i64,
    maxTimeDrift: i64,
    maxBlockSize: u64,
    merkleEnable: bool,
    merkleActivationHeight: u64,
    binaryEncodingEnable: bool,
    binaryEncodingActivationHeight: u64,
    policy: MonetaryPolicy)

  /** What the rules call and this model leaves open.
      - `header(b, nonce)`: the proof-of-work preimage of `b` (its own hash and nonce blanked);
      - `legacyPreimage(tx)`: the JSON signing view, `None` when it cannot be built;
      - `sigOk(pub, digest, sig)`: Ed25519 verification. */
  datatype Env = Env(
    sha: Bytes -> Digest,
    header: (Block, u64) -> Option<Bytes>,
    legacyPreimage: Transaction -> Option<Bytes>,
    sigOk: (Bytes, Digest, Bytes) -> bool,
    validAddress: string -> bool,
    addressOf: Bytes -> string,
    blockSize: Block -> nat)

  datatype Config = Config(
    env: Env,
    params: ConsensusParams,
    chainId: u64)

  const MAX_DIFFICULTY_BITS: u32 := 256
  const MIN_FEE: u64 := 1
  const PUBLIC_KEY_SIZE: nat := 32
  const SIGNATURE_SIZE: nat := 64

  datatype Error =
    // transaction checks
    | UnknownTxType | MissingChainId | ZeroAmount | BadAddress | CoinbaseHasTransferFields
    | BadPubKeyLength | BadSignatureLength | ZeroNonce | EncodingFailed | BadSignature
    // ledger transition
    | BlockTooLarge | NoTransactions | FirstNotCoinbase | BadMinerAddress | CoinbaseNotToMiner
    | BadCoinbaseAmount | CoinbaseNotFirst | BadNonce | InsufficientFunds
    // block admission
    | ExternalGenesis | BadVersion | MissingHash | MissingDifficulty | DifficultyOutOfRange
    | HeaderFailed | InvalidProofOfWork | WrongChainId | UnknownParent | DuplicateBlock | StoreFailed
    // path validation
    | CycleDetected | MissingAncestor | BadGenesisHeader | BadHeightLinkage | BadPrevHashLinkage
    | TimestampNotIncreasing | TimestampTooOld | TimestampTooFarInFuture
    | DifficultyCalcFailed | BadDifficulty | EmptyChain
    // loading
    | CanonicalMissing
    // mining
    | OnlyTransfers | FeeTooLow

  predicate BinaryEncodingActive(p: ConsensusParams, height: u64) {
    p.binaryEncodingEnable && height >= p.binaryEncodingActivationHeight
  }

  function BlockVersionForHeight(p: ConsensusParams, height: u64): u32 {
    if p.merkleEnable && height >= p.merkleActivationHeight then 2 else 1
  }

  /** The parameters a genesis file may carry. */
  predicate ParamsOk(p: ConsensusParams) {
    && p.targetBlockTime > 0
    && p.difficultyWindow > 0
    && p.difficultyMaxStep > 0
    && 0 < p.minDifficultyBits <= p.genesisDifficultyBits <= p.maxDifficultyBits <= MAX_DIFFICULTY_BITS
    && p.medianTimePastWindow > 0
    && p.maxTimeDrift > 0
    && p.maxBlockSize > 0
    && PolicyOk(p.policy)
  }

  predicate PolicyOk(m: MonetaryPolicy) {
    && (m.initialBlockReward > 0 || m.tailEmission > 0)
    && m.halvingInterval > 0
    && m.minerFeeShare <= 100
  }
}
