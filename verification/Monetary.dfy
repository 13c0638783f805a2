/** Block subsidy, miner fee share, and the cap on what the subsidy can ever mint. */
module Monetary {
  import opened Words
  import opened Types

  /** `r >> k` */
  function Halved(r: u64, k: nat): u64 {
    if k == 0 then r else Halved(r, k - 1) / 2
  }

  /** Halving `k` times divides by 2^k. */
  lemma {:induction false} HalvedIsShift(r: u64, k: nat)
    ensures Pow2(k) >= 1 && Halved(r, k) == r / Pow2(k)
  {
    Pow2Positive(k);
    if k > 0 {
      HalvedIsShift(r, k - 1);
      Pow2Positive(k - 1);
      DivTwice(r, Pow2(k - 1));
    }
  }

  lemma DivTwice(n: nat, m: nat)
    requires m >= 1
    ensures n / m / 2 == n / (2 * m)
  {
    var q, r := n / m, n % m;
    var h, t := q / 2, q % 2;
    assert n == m * q + r;
    assert m * (2 * h + t) == 2 * m * h + m * t;
    assert m * t + r < 2 * m by { if t == 1 { assert m * t == m; } else { assert m * t == 0; } }
    DivModUnique(n, 2 * m, h, m * t + r);
  }

  /** The subsidy after `halvings` halvings. */
  function EraReward(m: MonetaryPolicy, halvings: nat): u64 {
    if halvings >= 64 then m.tailEmission
    else
      var reward := Halved(m.initialBlockReward, halvings);
      if reward == 0 && m.tailEmission == 0 then 1
      else if reward == 0 then m.tailEmission
      else reward
  }

  function BlockReward(m: MonetaryPolicy, height: u64): u64 {
    if m.halvingInterval == 0 then m.initialBlockReward
    else EraReward(m, Quotient(height, m.halvingInterval))
  }

  function MinerFeeAmount(m: MonetaryPolicy, totalFees: u64): u64 {
    if m.minerFeeShare == 0 || totalFees == 0 then 0
    else MulU64(totalFees, m.minerFeeShare) / 100
  }

  /** The miner never gets more than the fees, and gets the exact share when the product fits. */
  lemma MinerFeeShareBound(m: MonetaryPolicy, totalFees: u64)
    requires m.minerFeeShare <= 100
    ensures MinerFeeAmount(m, totalFees) <= totalFees
    ensures MinerFeeAmount(m, totalFees) == totalFees * m.minerFeeShare % TWO64 / 100
    ensures totalFees * m.minerFeeShare < TWO64 ==> MinerFeeAmount(m, totalFees) == totalFees * m.minerFeeShare / 100
  {
    var product := totalFees * m.minerFeeShare;
    TimesIsProduct(totalFees, m.minerFeeShare);
    assert product <= totalFees * 100 by { MulMonotone(totalFees, m.minerFeeShare, 100); }
    ModNoGreater(product);
  }

  lemma ModNoGreater(x: nat)
    ensures x % TWO64 <= x
    ensures x < TWO64 ==> x % TWO64 == x
  {
  }

  /** Subsidies of heights 0 to n - 1. */
  ghost function RewardsBelow(m: MonetaryPolicy, n: nat): nat
    requires n <= TWO64
  {
    if n == 0 then 0 else RewardsBelow(m, n - 1) + BlockReward(m, n - 1)
  }

  /** Sum of the first `k` era rewards. */
  ghost function EraTotal(m: MonetaryPolicy, k: nat): nat {
    if k == 0 then 0 else EraTotal(m, k - 1) + EraReward(m, k - 1)
  }

  lemma RewardInEra(m: MonetaryPolicy, k: nat, r: nat)
    requires r < m.halvingInterval
    requires m.halvingInterval * k + r < TWO64
    ensures BlockReward(m, m.halvingInterval * k + r) == EraReward(m, k)
  {
    QuotientIsDivision(m.halvingInterval * k + r, m.halvingInterval, k, r);
  }

  /** The subsidy schedule: in era `k` the first reward divided by 2^k; where that is nothing, the tail emission or one
      unit; and from era 64 on the tail emission. */
  lemma RewardSchedule(m: MonetaryPolicy, k: nat, r: nat)
    requires r < m.halvingInterval && m.halvingInterval * k + r < TWO64
    ensures var reward := BlockReward(m, m.halvingInterval * k + r);
            && Pow2(k) >= 1
            && (k >= 64 ==> reward == m.tailEmission)
            && (k < 64 && m.initialBlockReward >= Pow2(k) ==>
                  reward == m.initialBlockReward / Pow2(k) && reward * Pow2(k) <= m.initialBlockReward)
            && (k < 64 && m.initialBlockReward < Pow2(k) ==> reward == if m.tailEmission > 0 then m.tailEmission else 1)
  {
    Pow2Positive(k);
    RewardInEra(m, k, r);
    HalvedIsShift(m.initialBlockReward, k);
    DivBound(m.initialBlockReward, Pow2(k));
  }

  lemma DivBound(n: nat, m: nat)
    requires m >= 1
    ensures n / m * m <= n && (n / m == 0 <==> n < m)
  {
    assert n == m * (n / m) + n % m;
    if n / m > 0 { MulMonotone(m, 1, n / m); }
  }

  /** Without halving every block has the first reward. */
  lemma NoHalving(m: MonetaryPolicy, h: u64)
    requires m.halvingInterval == 0
    ensures BlockReward(m, h) == m.initialBlockReward
  {
  }

  /** Rewards are constant within an era, so they add up era by era. */
  lemma {:induction false} RewardsByEra(m: MonetaryPolicy, n: nat, k: nat, r: nat)
    requires r < m.halvingInterval
    requires n == m.halvingInterval * k + r <= TWO64
    ensures RewardsBelow(m, n) == m.halvingInterval * EraTotal(m, k) + r * EraReward(m, k)
    decreases k, r
  {
    var i := m.halvingInterval;
    if r > 0 {
      RewardsByEra(m, n - 1, k, r - 1);
      RewardInEra(m, k, r - 1);
      assert r * EraReward(m, k) == (r - 1) * EraReward(m, k) + EraReward(m, k);
    } else if k > 0 {
      assert n - 1 == i * (k - 1) + (i - 1);
      RewardsByEra(m, n - 1, k - 1, i - 1);
      RewardInEra(m, k - 1, i - 1);
      NextEra(i, EraTotal(m, k - 1), EraReward(m, k - 1));
    }
  }

  lemma NextEra(i: int, total: int, e: int)
    ensures i * (total + e) == i * total + (i - 1) * e + e
  {
  }

  lemma {:induction false} HalvingSum(m: MonetaryPolicy, k: nat)
    requires m.tailEmission == 0 && k <= 64
    ensures 2 * m.initialBlockReward - k <= EraTotal(m, k) + 2 * Halved(m.initialBlockReward, k)
    ensures EraTotal(m, k) + 2 * Halved(m.initialBlockReward, k) <= 2 * m.initialBlockReward + k
  {
    if k > 0 { HalvingSum(m, k - 1); }
  }

  lemma {:induction false} EraTotalCap(m: MonetaryPolicy, k: nat)
    requires m.tailEmission == 0
    ensures EraTotal(m, k) <= 2 * m.initialBlockReward + 64
  {
    if k <= 64 { HalvingSum(m, k); } else { EraTotalCap(m, k - 1); }
  }

  lemma Pow2At64()
    ensures Pow2(64) == TWO64
  {
    assert Pow2(4) == 16;
    Pow2Adds(4, 4);
    Pow2Adds(8, 8);
    Pow2Adds(16, 16);
    Pow2Adds(32, 32);
  }

  /** The cap is tight: the eras of halving together pay twice the first reward, up to 64 units. */
  lemma EraTotalTight(m: MonetaryPolicy)
    requires m.tailEmission == 0
    ensures 2 * m.initialBlockReward - 64 <= EraTotal(m, 64) <= 2 * m.initialBlockReward + 64
  {
    HalvingSum(m, 64);
    HalvedIsShift(m.initialBlockReward, 64);
    Pow2At64();
  }

  /** Without tail emission the subsidies of any number of blocks stay under a fixed bound. */
  lemma RewardCap(m: MonetaryPolicy, n: nat)
    requires m.tailEmission == 0 && m.halvingInterval > 0 && n <= TWO64
    ensures RewardsBelow(m, n) <= m.halvingInterval * (2 * m.initialBlockReward + 64)
  {
    var i := m.halvingInterval;
    var k, r := n / i, n % i;
    RewardsByEra(m, n, k, r);
    EraTotalCap(m, k + 1);
    CapArithmetic(i, r, EraTotal(m, k), EraReward(m, k), 2 * m.initialBlockReward + 64);
  }

  lemma CapArithmetic(i: nat, r: nat, total: nat, e: nat, cap: nat)
    requires r <= i && total + e <= cap
    ensures i * total + r * e <= i * cap
  {
    MulMonotone(e, r, i);
    MulMonotone(i, total + e, cap);
    assert i * (total + e) == i * total + e * i;
  }
}
