/** The byte form of the consensus parameters whose hash pins a chain store to its rules. */
module RulesHash {
  import opened Words
  import opened Types
  import opened Encoding

  const RULES_HASH_VERSION: u8 := 3

  function BoolByte(v: bool): Bytes {
    if v then [1] else [0]
  }

  /** Version, difficulty and time rules. */
  function TimingFields(p: ConsensusParams): seq<Bytes> {
    [[RULES_HASH_VERSION],
     BoolByte(p.difficultyEnable),
     LE(p.targetBlockTime, 8),
     LE(p.difficultyWindow, 4),
     LE(p.difficultyMaxStep, 4),
     LE(p.minDifficultyBits, 4),
     LE(p.maxDifficultyBits, 4),
     LE(p.genesisDifficultyBits, 4),
     LE(p.medianTimePastWindow, 4),
     LE(p.maxTimeDrift, 8)]
  }

  /** Activation heights, block size and monetary policy. */
  function FormatFields(p: ConsensusParams): seq<Bytes> {
    [BoolByte(p.merkleEnable),
     LE(p.merkleActivationHeight, 8),
     BoolByte(p.binaryEncodingEnable),
     LE(p.binaryEncodingActivationHeight, 8),
     LE(p.maxBlockSize, 8),
     LE(p.policy.initialBlockReward, 8),
     LE(p.policy.halvingInterval, 8),
     [p.policy.minerFeeShare],
     LE(p.policy.tailEmission, 8)]
  }

  function RuleFields(p: ConsensusParams): seq<Bytes> {
    TimingFields(p) + FormatFields(p)
  }

  method MarshalTiming(p: ConsensusParams) returns (buf: Bytes)
    ensures buf == Flatten(TimingFields(p))
  {
    ghost var f := TimingFields(p);
    buf := [];
    buf := WriteField(buf, [RULES_HASH_VERSION], f, 0);
    buf := WriteField(buf, BoolByte(p.difficultyEnable), f, 1);
    buf := WriteField(buf, LE(p.targetBlockTime, 8), f, 2);
    buf := WriteField(buf, LE(p.difficultyWindow, 4), f, 3);
    buf := WriteField(buf, LE(p.difficultyMaxStep, 4), f, 4);
    buf := WriteField(buf, LE(p.minDifficultyBits, 4), f, 5);
    buf := WriteField(buf, LE(p.maxDifficultyBits, 4), f, 6);
    buf := WriteField(buf, LE(p.genesisDifficultyBits, 4), f, 7);
    buf := WriteField(buf, LE(p.medianTimePastWindow, 4), f, 8);
    buf := WriteField(buf, LE(p.maxTimeDrift, 8), f, 9);
    FlattenWhole(f, 10);
  }

  method MarshalFormat(p: ConsensusParams) returns (buf: Bytes)
    ensures buf == Flatten(FormatFields(p))
  {
    ghost var f := FormatFields(p);
    buf := [];
    buf := WriteField(buf, BoolByte(p.merkleEnable), f, 0);
    buf := WriteField(buf, LE(p.merkleActivationHeight, 8), f, 1);
    buf := WriteField(buf, BoolByte(p.binaryEncodingEnable), f, 2);
    buf := WriteField(buf, LE(p.binaryEncodingActivationHeight, 8), f, 3);
    buf := WriteField(buf, LE(p.maxBlockSize, 8), f, 4);
    buf := WriteField(buf, LE(p.policy.initialBlockReward, 8), f, 5);
    buf := WriteField(buf, LE(p.policy.halvingInterval, 8), f, 6);
    buf := WriteField(buf, [p.policy.minerFeeShare], f, 7);
    buf := WriteField(buf, LE(p.policy.tailEmission, 8), f, 8);
    FlattenWhole(f, 9);
  }

  /** Writes the nineteen fields one after another. */
  method MarshalBinary(p: ConsensusParams) returns (out: Bytes)
    ensures out == Flatten(RuleFields(p))
  {
    var timing := MarshalTiming(p);
    var format := MarshalFormat(p);
    FlattenAppend(TimingFields(p), FormatFields(p));
    return timing + format;
  }

  /** Equal up to the 32-bit truncation of the two window lengths. */
  ghost predicate SameRules(p: ConsensusParams, q: ConsensusParams) {
    && p.difficultyWindow % TWO32 == q.difficultyWindow % TWO32
    && p.medianTimePastWindow % TWO32 == q.medianTimePastWindow % TWO32
    && p.(difficultyWindow := 0, medianTimePastWindow := 0) == q.(difficultyWindow := 0, medianTimePastWindow := 0)
  }

  ghost predicate SameTiming(p: ConsensusParams, q: ConsensusParams) {
    && p.difficultyEnable == q.difficultyEnable
    && p.targetBlockTime == q.targetBlockTime
    && p.difficultyWindow % TWO32 == q.difficultyWindow % TWO32
    && p.difficultyMaxStep == q.difficultyMaxStep
    && p.minDifficultyBits == q.minDifficultyBits
    && p.maxDifficultyBits == q.maxDifficultyBits
    && p.genesisDifficultyBits == q.genesisDifficultyBits
    && p.medianTimePastWindow % TWO32 == q.medianTimePastWindow % TWO32
    && p.maxTimeDrift == q.maxTimeDrift
  }

  ghost predicate SameFormat(p: ConsensusParams, q: ConsensusParams) {
    && p.merkleEnable == q.merkleEnable
    && p.merkleActivationHeight == q.merkleActivationHeight
    && p.binaryEncodingEnable == q.binaryEncodingEnable
    && p.binaryEncodingActivationHeight == q.binaryEncodingActivationHeight
    && p.maxBlockSize == q.maxBlockSize
    && p.policy == q.policy
  }

  lemma TimingAgreement(p: ConsensusParams, q: ConsensusParams)
    ensures TimingFields(p) == TimingFields(q) <==> SameTiming(p, q)
  {
    LEI64(p.targetBlockTime, q.targetBlockTime);
    LE32(p.difficultyWindow, q.difficultyWindow);
    LE32(p.difficultyMaxStep, q.difficultyMaxStep);
    LE32(p.minDifficultyBits, q.minDifficultyBits);
    LE32(p.maxDifficultyBits, q.maxDifficultyBits);
    LE32(p.genesisDifficultyBits, q.genesisDifficultyBits);
    LE32(p.medianTimePastWindow, q.medianTimePastWindow);
    LEI64(p.maxTimeDrift, q.maxTimeDrift);
    var f, g := TimingFields(p), TimingFields(q);
    if f == g {
      assert f[1] == g[1] && f[2] == g[2] && f[3] == g[3] && f[4] == g[4] && f[5] == g[5];
      assert f[6] == g[6] && f[7] == g[7] && f[8] == g[8] && f[9] == g[9];
    }
  }

  lemma FormatAgreement(p: ConsensusParams, q: ConsensusParams)
    ensures FormatFields(p) == FormatFields(q) <==> SameFormat(p, q)
  {
    LE64(p.merkleActivationHeight, q.merkleActivationHeight);
    LE64(p.binaryEncodingActivationHeight, q.binaryEncodingActivationHeight);
    LE64(p.maxBlockSize, q.maxBlockSize);
    LE64(p.policy.initialBlockReward, q.policy.initialBlockReward);
    LE64(p.policy.halvingInterval, q.policy.halvingInterval);
    LE64(p.policy.tailEmission, q.policy.tailEmission);
    var f, g := FormatFields(p), FormatFields(q);
    if f == g {
      assert f[0] == g[0] && f[1] == g[1] && f[2] == g[2] && f[3] == g[3] && f[4] == g[4];
      assert f[5] == g[5] && f[6] == g[6] && f[7] == g[7] && f[8] == g[8];
    }
  }

  lemma FieldAgreement(p: ConsensusParams, q: ConsensusParams)
    ensures RuleFields(p) == RuleFields(q) <==> SameRules(p, q)
  {
    TimingAgreement(p, q);
    FormatAgreement(p, q);
    if RuleFields(p) == RuleFields(q) {
      SplitConcat(TimingFields(p), FormatFields(p), TimingFields(q), FormatFields(q));
    }
  }

  /** The bytes identify the rules exactly up to the window truncation. */
  lemma MarshalIdentifiesRules(p: ConsensusParams, q: ConsensusParams)
    ensures Flatten(RuleFields(p)) == Flatten(RuleFields(q)) <==> SameRules(p, q)
  {
    FieldAgreement(p, q);
    if Flatten(RuleFields(p)) == Flatten(RuleFields(q)) {
      assert Flatten(RuleFields(p)) + [] == Flatten(RuleFields(q)) + [];
      FlattenInjective(RuleFields(p), RuleFields(q), [], []);
    }
  }

  /** Windows that fit 32 bits make the encoding injective. */
  lemma MarshalInjective(p: ConsensusParams, q: ConsensusParams)
    requires 0 <= p.difficultyWindow < TWO32 && 0 <= p.medianTimePastWindow < TWO32
    requires 0 <= q.difficultyWindow < TWO32 && 0 <= q.medianTimePastWindow < TWO32
    requires Flatten(RuleFields(p)) == Flatten(RuleFields(q))
    ensures p == q
  {
    MarshalIdentifiesRules(p, q);
  }

  /** Windows 2^32 apart share their bytes, so the encoding is not injective on all parameters. */
  lemma WindowTruncationCollides(p: ConsensusParams)
    requires 0 <= p.difficultyWindow < TWO32
    ensures var q := p.(difficultyWindow := p.difficultyWindow + TWO32);
            p != q && Flatten(RuleFields(p)) == Flatten(RuleFields(q))
  {
    MarshalIdentifiesRules(p, p.(difficultyWindow := p.difficultyWindow + TWO32));
  }
}
