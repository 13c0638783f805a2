/** Difficulty retargeting from the timestamps of a window of blocks, in Go's int64 arithmetic. */
module Difficulty {
  import opened Words
  import opened Types

  const NANOS_PER_SECOND := 1_000_000_000

  datatype Decision = Raise | Keep | Lower

  function ClampBits(p: ConsensusParams, bits: u32): u32 {
    var b := if bits < 1 then 1 else if bits > MAX_DIFFICULTY_BITS then MAX_DIFFICULTY_BITS else bits;
    if b < p.minDifficultyBits then p.minDifficultyBits
    else if b > p.maxDifficultyBits then p.maxDifficultyBits
    else b
  }

  /** Seconds a full window should take. */
  function ExpectedSpan(p: ConsensusParams): (e: i64)
    ensures e >= 1
  {
    var targetSec := p.targetBlockTime / NANOS_PER_SECOND;
    var target := if targetSec <= 0 then 1 else targetSec;
    var span := WrapI64(Times(p.difficultyWindow, target));
    if span <= 0 then 1 else span
  }

  /** Factor-4 bounds on the measured span. */
  function ClampSpan(actual: i64, expected: i64): i64 {
    var a := if actual < expected / 4 then expected / 4 else actual;
    if a > WrapI64(expected * 4) then WrapI64(expected * 4) else a
  }

  function Decide(span: i64, expected: i64): Decision {
    if span < expected / 2 then Raise
    else if span > WrapI64(expected * 2) then Lower
    else Keep
  }

  /** The next bits for a decision: an int64 step floored at 1, a cast to uint32, and the range clamp. */
  function Adjust(p: ConsensusParams, bits: u32, d: Decision): u32 {
    ClampBits(p, ToU32(Stepped(p, bits, d)))
  }

  function Stepped(p: ConsensusParams, bits: u32, d: Decision): nat {
    var next := match d
      case Raise => bits + p.difficultyMaxStep
      case Lower => bits - p.difficultyMaxStep
      case Keep => bits;
    if next < 1 then 1 else next
  }

  function ToU32(x: nat): u32 { x % TWO32 }

  lemma ToU32Once(x: nat)
    requires x < 2 * TWO32
    ensures ToU32(x) == if x < TWO32 then x else x - TWO32
  {
  }

  /** Seconds the last full window took, in int64; zero and less count as one. */
  function MeasuredSpan(p: ConsensusParams, path: seq<Block>): (span: i64)
    requires 0 <= p.difficultyWindow < |path|
    ensures span >= 1
  {
    var measured := WrapI64(path[|path| - 1].timestamp - path[|path| - 1 - p.difficultyWindow].timestamp);
    if measured <= 0 then 1 else measured
  }

  /** The bits of the block that follows `path`. A negative window, which no genesis file may set, is not told from a
      long one. */
  function NextBits(p: ConsensusParams, path: seq<Block>): u32 {
    if path == [] then p.genesisDifficultyBits
    else
      var parentIdx := |path| - 1;
      var parent := path[parentIdx];
      if !p.difficultyEnable then
        if parent.bits == 0 then p.genesisDifficultyBits else ClampBits(p, parent.bits)
      else if parentIdx < p.difficultyWindow || p.difficultyWindow < 0 then ClampBits(p, parent.bits)
      else
        var expected := ExpectedSpan(p);
        Adjust(p, parent.bits, Decide(ClampSpan(MeasuredSpan(p, path), expected), expected))
  }

  predicate InRange(p: ConsensusParams, bits: u32) {
    p.minDifficultyBits <= bits <= p.maxDifficultyBits
  }

  lemma ClampStaysNear(p: ConsensusParams, parent: u32, next: u32, step: u32)
    requires ParamsOk(p) && InRange(p, parent)
    requires parent - step <= next <= parent + step
    ensures InRange(p, ClampBits(p, next)) && parent - step <= ClampBits(p, next) <= parent + step
  {
  }

  lemma AdjustStep(p: ConsensusParams, bits: u32, d: Decision)
    requires ParamsOk(p) && InRange(p, bits)
    ensures InRange(p, Adjust(p, bits, d))
    ensures bits - p.difficultyMaxStep <= Adjust(p, bits, d) <= bits + p.difficultyMaxStep
  {
    var next := Stepped(p, bits, d);
    ToU32Once(next);
    ClampStaysNear(p, bits, if next < TWO32 then next else next - TWO32, p.difficultyMaxStep);
  }

  function Least(a: int, b: int): int { if a > b then b else a }

  function Greatest(a: int, b: int): int { if a < b then b else a }

  /** Bits out of range become the nearest bits in range. */
  lemma ClampMeaning(p: ConsensusParams, bits: u32)
    requires ParamsOk(p)
    ensures ClampBits(p, bits) == Least(Greatest(bits, p.minDifficultyBits), p.maxDifficultyBits)
    ensures InRange(p, ClampBits(p, bits)) && (InRange(p, bits) ==> ClampBits(p, bits) == bits)
  {
  }

  /** Without retargeting, and before a full window, the parent's bits carry over; the first block, and without
      retargeting a parent without bits, give those of genesis. */
  lemma NextBitsCarries(p: ConsensusParams, path: seq<Block>)
    requires ParamsOk(p)
    ensures NextBits(p, []) == p.genesisDifficultyBits
    ensures path != [] && (!p.difficultyEnable || |path| <= p.difficultyWindow) ==>
              var bits := path[|path| - 1].bits;
              && (InRange(p, bits) ==> NextBits(p, path) == bits)
              && NextBits(p, path) == if !p.difficultyEnable && bits == 0 then p.genesisDifficultyBits
                                      else Least(Greatest(bits, p.minDifficultyBits), p.maxDifficultyBits)
  {
    if path != [] { ClampMeaning(p, path[|path| - 1].bits); }
  }

  /** The expected span is window times seconds per block, at least one of each, in int64. */
  lemma ExpectedSpanMeaning(p: ConsensusParams)
    ensures var product := p.difficultyWindow * Greatest(p.targetBlockTime / 1_000_000_000, 1);
            && ExpectedSpan(p) == Greatest(WrapI64(product), 1)
            && (1 <= product <= MAX_I64 ==> ExpectedSpan(p) == product)
  {
    TimesIsProduct(p.difficultyWindow, Greatest(p.targetBlockTime / NANOS_PER_SECOND, 1));
  }

  /** The measured span is the time from the first to the last block of the window, at least one second, in int64. */
  lemma MeasuredSpanMeaning(p: ConsensusParams, path: seq<Block>)
    requires 0 <= p.difficultyWindow < |path|
    ensures var took := path[|path| - 1].timestamp - path[|path| - 1 - p.difficultyWindow].timestamp;
            && MeasuredSpan(p, path) == Greatest(WrapI64(took), 1)
            && (1 <= took <= MAX_I64 ==> MeasuredSpan(p, path) == took)
  {
  }

  /** One retarget stays in range and moves by at most the maximum step, even when the uint32 cast wraps. */
  lemma NextBitsStep(p: ConsensusParams, path: seq<Block>)
    requires ParamsOk(p) && path != [] && InRange(p, path[|path| - 1].bits)
    ensures InRange(p, NextBits(p, path))
    ensures var parent := path[|path| - 1].bits;
            parent - p.difficultyMaxStep <= NextBits(p, path) <= parent + p.difficultyMaxStep
  {
    var parent := path[|path| - 1].bits;
    AdjustStep(p, parent, Raise);
    AdjustStep(p, parent, Lower);
    AdjustStep(p, parent, Keep);
    ClampStaysNear(p, parent, parent, p.difficultyMaxStep);
  }

  /** A raise never lowers the bits if and only if the uint32 cast does not wrap, or the bits are at their least. */
  lemma RaiseRaisesIff(p: ConsensusParams, bits: u32)
    requires ParamsOk(p) && InRange(p, bits)
    ensures Adjust(p, bits, Raise) >= bits <==> (bits + p.difficultyMaxStep < TWO32 || bits == p.minDifficultyBits)
  {
    ToU32Once(Stepped(p, bits, Raise));
  }

  /** Retargeting goes the right way: a window in under half its time raises the bits, one in over twice its time
      lowers them, by one step within the range, and any other keeps them. Four expected spans must fit an int64 and
      a step a uint32; `HugeWindowFails` and `HugeStepLowers` show why. */
  lemma RetargetDirection(p: ConsensusParams, path: seq<Block>)
    requires ParamsOk(p) && p.difficultyEnable && |path| > p.difficultyWindow
    requires InRange(p, path[|path| - 1].bits) && path[|path| - 1].bits + p.difficultyMaxStep < TWO32
    requires ExpectedSpan(p) * 4 <= MAX_I64
    ensures var bits, next, span := path[|path| - 1].bits, NextBits(p, path), MeasuredSpan(p, path);
            if span < ExpectedSpan(p) / 2 then next == Least(bits + p.difficultyMaxStep, p.maxDifficultyBits)
            else if span > ExpectedSpan(p) * 2 then next == Greatest(bits - p.difficultyMaxStep, p.minDifficultyBits)
            else next == bits
  {
    NextBitsDecision(p, path);
    DecisionMeaning(MeasuredSpan(p, path), ExpectedSpan(p));
    AdjustMeaning(p, path[|path| - 1].bits);
  }

  lemma NextBitsDecision(p: ConsensusParams, path: seq<Block>)
    requires ParamsOk(p) && p.difficultyEnable && |path| > p.difficultyWindow
    ensures var expected := ExpectedSpan(p);
            NextBits(p, path) == Adjust(p, path[|path| - 1].bits,
                                        Decide(ClampSpan(MeasuredSpan(p, path), expected), expected))
  {
  }

  lemma DecisionMeaning(span: i64, expected: i64)
    requires span >= 1 && expected >= 1 && expected * 4 <= MAX_I64
    ensures Decide(ClampSpan(span, expected), expected)
            == if span < expected / 2 then Raise else if span > expected * 2 then Lower else Keep
  {
    OrdinaryWindows(expected);
    ClampKeepsDecision(span, expected);
  }

  /** Without a uint32 wrap an adjustment is one step within the range. */
  lemma AdjustMeaning(p: ConsensusParams, bits: u32)
    requires ParamsOk(p) && InRange(p, bits) && bits + p.difficultyMaxStep < TWO32
    ensures Adjust(p, bits, Raise) == Least(bits + p.difficultyMaxStep, p.maxDifficultyBits)
    ensures Adjust(p, bits, Lower) == Greatest(bits - p.difficultyMaxStep, p.minDifficultyBits)
    ensures Adjust(p, bits, Keep) == bits
  {
    ToU32Once(Stepped(p, bits, Raise));
    ToU32Once(Stepped(p, bits, Lower));
    ToU32Once(Stepped(p, bits, Keep));
  }

  /** The factor-4 bounds change no decision on any span exactly when four expected spans, as an int64,
      are at least half an expected span. */
  lemma SpanClampIsHarmless(expected: i64)
    requires expected >= 1
    ensures (forall a: i64 :: a >= 1 ==> Decide(ClampSpan(a, expected), expected) == Decide(a, expected))
            <==> WrapI64(expected * 4) >= expected / 2
  {
    if WrapI64(expected * 4) >= expected / 2 {
      forall a: i64 | a >= 1 ensures Decide(ClampSpan(a, expected), expected) == Decide(a, expected) {
        ClampKeepsDecision(a, expected);
      }
    } else {
      assert Decide(ClampSpan(MAX_I64, expected), expected) == Raise;
      assert Decide(MAX_I64, expected) != Raise;
    }
  }

  lemma ClampKeepsDecision(a: i64, expected: i64)
    requires expected >= 1 && a >= 1 && WrapI64(expected * 4) >= expected / 2
    ensures Decide(ClampSpan(a, expected), expected) == Decide(a, expected)
  {
    DoubleBelowQuadruple(expected);
  }

  lemma DoubleBelowQuadruple(expected: i64)
    requires expected >= 1 && WrapI64(expected * 4) >= expected / 2
    ensures WrapI64(expected * 2) < WrapI64(expected * 4)
  {
    if expected < TWO63 / 2 {
      assert WrapI64(expected * 2) == expected * 2;
      if expected < TWO63 / 4 {
        assert WrapI64(expected * 4) == expected * 4;
      }
    } else {
      assert WrapI64(expected * 2) == expected * 2 - TWO64;
    }
  }

  /** Ordinary windows (four expected spans fit an int64) always satisfy the condition. */
  lemma OrdinaryWindows(expected: i64)
    requires 1 <= expected && expected * 4 <= MAX_I64
    ensures WrapI64(expected * 4) >= expected / 2
  {
  }

  // ----- where the conditions fail -----

  /** Parameters a genesis file may carry: 2^29 blocks of 2^32 seconds each, 2^61 seconds in all, with a clock drift of
      2^62 seconds, which admits such timestamps. */
  function HugeWindow(): (p: ConsensusParams)
    ensures ParamsOk(p) && p.difficultyEnable
  {
    ConsensusParams(true, 0x1_0000_0000 * NANOS_PER_SECOND, 0x2000_0000, 1, 1, 256, 1, 11, 0x4000_0000_0000_0000, 1,
                    false, 0, false, 0, MonetaryPolicy(1, 1, 0, 0))
  }

  lemma HugeWindowSpan(p: ConsensusParams, target: nat)
    requires p.difficultyWindow == 0x2000_0000 && target == 0x1_0000_0000
             && p.targetBlockTime == target * NANOS_PER_SECOND
    ensures ExpectedSpan(p) == 0x2000_0000_0000_0000
  {
    assert p.targetBlockTime / NANOS_PER_SECOND == target;
    TimesIsProduct(p.difficultyWindow, target);
  }

  /** There a window mined at exactly the intended pace, which by itself calls for no change, raises the difficulty. */
  lemma HugeWindowFails(path: seq<Block>)
    requires |path| > HugeWindow().difficultyWindow && 1 <= path[|path| - 1].bits < 256
    requires path[|path| - 1].timestamp - path[|path| - 1 - HugeWindow().difficultyWindow].timestamp
             == 0x2000_0000_0000_0000
    ensures ExpectedSpan(HugeWindow()) == 0x2000_0000_0000_0000
    ensures Decide(0x2000_0000_0000_0000, ExpectedSpan(HugeWindow())) == Keep
    ensures NextBits(HugeWindow(), path) == path[|path| - 1].bits + 1
  {
    var p, bits := HugeWindow(), path[|path| - 1].bits;
    HugeWindowSpan(p, 0x1_0000_0000);
    NextBitsDecision(p, path);
    assert MeasuredSpan(p, path) == 0x2000_0000_0000_0000;
    assert WrapI64(0x2000_0000_0000_0000 * 4) == -TWO63;
    AdjustMeaning(p, bits);
  }

  /** Parameters a genesis file may carry, with the largest step. */
  function HugeStep(): (p: ConsensusParams)
    ensures ParamsOk(p) && p.difficultyEnable
  {
    ConsensusParams(true, 10 * NANOS_PER_SECOND, 1, 0xFFFF_FFFF, 1, 256, 2, 11, 1, 1, false, 0, false, 0,
                    MonetaryPolicy(1, 1, 0, 0))
  }

  /** There a window mined ten times too fast lowers the difficulty from 2 to 1. */
  lemma HugeStepLowers(path: seq<Block>)
    requires |path| > 1 && path[|path| - 1].bits == 2
    requires path[|path| - 1].timestamp - path[|path| - 2].timestamp == 1
    ensures NextBits(HugeStep(), path) == 1
  {
    var p := HugeStep();
    TimesIsProduct(p.difficultyWindow, 10);
    assert ExpectedSpan(p) == 10;
    NextBitsDecision(p, path);
    assert MeasuredSpan(p, path) == 1;
    DecisionMeaning(1, 10);
    ToU32Once(Stepped(p, 2, Raise));
  }
}
