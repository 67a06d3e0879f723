/** Halving and retargeting as functions of the height and of elapsed time. */
module Schedule {
  import opened Target
  import opened Words

  const TOTAL_SUPPLY_BASE: nat := 21_000_000 * 1_000_000
  const PREMINE_BASE: nat := 2_100_000 * 1_000_000
  const MINEABLE_BASE: u64 := TOTAL_SUPPLY_BASE - PREMINE_BASE
  const INITIAL_BLOCK_REWARD_BASE: u64 := 25 * 1_000_000
  const HALVING_INTERVAL_BLOCKS: u64 := 378_000
  const RETARGET_INTERVAL_BLOCKS: u64 := 60
  const RETARGET_TARGET_SECONDS: u64 := RETARGET_INTERVAL_BLOCKS * 60
  const RETARGET_MIN_NUM: u64 := 1
  const RETARGET_MIN_DEN: u64 := 2
  const RETARGET_MAX_NUM: u64 := 2
  const RETARGET_MAX_DEN: u64 := 1
  const ROUND_TIMEOUT_SLOTS: u64 := 150

  // ---- Halving -----------------------------------------------------------------------------

  /** `n >> e`. */
  function ShiftRight(n: nat, e: nat): (r: nat)
    ensures r <= n
  {
    if e == 0 then n else ShiftRight(n, e - 1) / 2
  }

  lemma {:induction false} ShiftRightDivides(n: nat, e: nat)
    ensures ShiftRight(n, e) == n / Pow2(e)
  {
    if e == 0 {
      DivUnique(n, Pow2(0), n, 0);
    } else {
      ShiftRightDivides(n, e - 1);
      DivDiv(n, Pow2(e - 1));
    }
  }

  /** `reward_at_height`. */
  function RewardAtHeight(height: nat): (r: u64)
    ensures r <= INITIAL_BLOCK_REWARD_BASE
  {
    var halvings := height / HALVING_INTERVAL_BLOCKS;
    if halvings >= 64 then 0 else ShiftRight(INITIAL_BLOCK_REWARD_BASE, halvings)
  }

  predicate IsHalvingBoundary(height: nat) {
    height > 0 && height % HALVING_INTERVAL_BLOCKS == 0
  }

  predicate IsRetargetBoundary(height: nat) {
    height > 0 && height % RETARGET_INTERVAL_BLOCKS == 0
  }

  /** The reward after `e` halvings; the cut-off at 64 only ever replaces a zero by a zero. */
  function EpochReward(e: nat): nat {
    ShiftRight(INITIAL_BLOCK_REWARD_BASE, e)
  }

  /** `e` halvings of `n` add up to this, the undivided `n` first. */
  function HalvingSum(n: nat, e: nat): nat {
    if e == 0 then 0 else HalvingSum(n, e - 1) + ShiftRight(n, e - 1)
  }

  /** One bits shifted out by `e` halvings of `n`. */
  function BitsLost(n: nat, e: nat): nat {
    if e == 0 then 0 else BitsLost(n, e - 1) + ShiftRight(n, e - 1) % 2
  }

  /** Repeated halving sums to 2n, less what is left and less one for every bit shifted out. */
  lemma {:induction false} HalvingSumExact(n: nat, e: nat)
    ensures HalvingSum(n, e) + 2 * ShiftRight(n, e) + BitsLost(n, e) == 2 * n
  {
    if e > 0 {
      HalvingSumExact(n, e - 1);
    }
  }

  lemma OneHalving(n: nat, e: nat, half: nat, odd: nat)
    requires ShiftRight(n, e) == 2 * half + odd && odd < 2
    ensures ShiftRight(n, e + 1) == half && BitsLost(n, e + 1) == BitsLost(n, e) + odd
  {}

  /** Twenty-five halvings use up the initial reward and lose its twelve one bits. */
  lemma TwentyFiveHalvings(n: nat, e: nat)
    requires n == INITIAL_BLOCK_REWARD_BASE && e == 0
    ensures ShiftRight(n, e + 24) == 1 && ShiftRight(n, e + 25) == 0 && BitsLost(n, e + 25) == 12
  {
    NineHalvings(n, e);
    EightHalvings(n, e + 9);
    LastHalvings(n, e + 17);
  }

  lemma NineHalvings(n: nat, e: nat)
    requires ShiftRight(n, e) == 25_000_000
    ensures ShiftRight(n, e + 9) == 48_828 && BitsLost(n, e + 9) == BitsLost(n, e) + 1
  {
    OneHalving(n, e, 12_500_000, 0);
    OneHalving(n, e + 1, 6_250_000, 0);
    OneHalving(n, e + 2, 3_125_000, 0);
    OneHalving(n, e + 3, 1_562_500, 0);
    OneHalving(n, e + 4, 781_250, 0);
    OneHalving(n, e + 5, 390_625, 0);
    OneHalving(n, e + 6, 195_312, 1);
    OneHalving(n, e + 7, 97_656, 0);
    OneHalving(n, e + 8, 48_828, 0);
  }

  lemma EightHalvings(n: nat, e: nat)
    requires ShiftRight(n, e) == 48_828
    ensures ShiftRight(n, e + 8) == 190 && BitsLost(n, e + 8) == BitsLost(n, e) + 5
  {
    OneHalving(n, e, 24_414, 0);
    OneHalving(n, e + 1, 12_207, 0);
    OneHalving(n, e + 2, 6_103, 1);
    OneHalving(n, e + 3, 3_051, 1);
    OneHalving(n, e + 4, 1_525, 1);
    OneHalving(n, e + 5, 762, 1);
    OneHalving(n, e + 6, 381, 0);
    OneHalving(n, e + 7, 190, 1);
  }

  lemma LastHalvings(n: nat, e: nat)
    requires ShiftRight(n, e) == 190
    ensures ShiftRight(n, e + 7) == 1 && ShiftRight(n, e + 8) == 0 && BitsLost(n, e + 8) == BitsLost(n, e) + 6
  {
    OneHalving(n, e, 95, 0);
    OneHalving(n, e + 1, 47, 1);
    OneHalving(n, e + 2, 23, 1);
    OneHalving(n, e + 3, 11, 1);
    OneHalving(n, e + 4, 5, 1);
    OneHalving(n, e + 5, 2, 1);
    OneHalving(n, e + 6, 1, 0);
    OneHalving(n, e + 7, 0, 1);
  }

  lemma {:induction false} ShiftRightShrinks(n: nat, d: nat, e: nat)
    requires d <= e
    ensures ShiftRight(n, e) <= ShiftRight(n, d)
  {
    if d < e {
      ShiftRightShrinks(n, d, e - 1);
    }
  }

  /** From epoch 25 on nothing is paid, so cutting the shift off at 64 changes nothing. */
  lemma EpochRewardEnds(e: nat)
    ensures EpochReward(e) == 0 <==> e >= 25
  {
    TwentyFiveHalvings(INITIAL_BLOCK_REWARD_BASE, 0);
    if e >= 25 {
      ShiftRightShrinks(INITIAL_BLOCK_REWARD_BASE, 25, e);
    } else {
      ShiftRightShrinks(INITIAL_BLOCK_REWARD_BASE, e, 24);
    }
  }

  lemma RewardInEpoch(height: nat)
    ensures RewardAtHeight(height) == EpochReward(height / HALVING_INTERVAL_BLOCKS)
  {
    EpochRewardEnds(height / HALVING_INTERVAL_BLOCKS);
  }

  /** The reward one block on: halved at a boundary, unchanged elsewhere. */
  lemma RewardAdvances(height: nat)
    ensures RewardAtHeight(height + 1)
         == if IsHalvingBoundary(height + 1) then RewardAtHeight(height) / 2 else RewardAtHeight(height)
  {
    RewardInEpoch(height);
    RewardInEpoch(height + 1);
    var e := height / HALVING_INTERVAL_BLOCKS;
    assert (height + 1) / HALVING_INTERVAL_BLOCKS == if IsHalvingBoundary(height + 1) then e + 1 else e;
  }

  const LAST_REWARDED_HEIGHT: nat := 25 * HALVING_INTERVAL_BLOCKS

  /** No reward from height 9,450,000 on, and always one before it. */
  lemma RewardEnds(height: nat)
    ensures RewardAtHeight(height) == 0 <==> height >= LAST_REWARDED_HEIGHT
  {
    RewardInEpoch(height);
    EpochRewardEnds(height / HALVING_INTERVAL_BLOCKS);
  }

  // ---- The total ever payable --------------------------------------------------------------

  /** The rewards of the first `height` blocks. */
  function SumRewards(height: nat): nat {
    if height == 0 then 0 else SumRewards(height - 1) + RewardAtHeight(height - 1)
  }

  /** All the rewards there will ever be. */
  const ALL_REWARDS: nat := HALVING_INTERVAL_BLOCKS * (2 * INITIAL_BLOCK_REWARD_BASE - 12)

  lemma {:induction false} SumRewardsGrows(a: nat, b: nat)
    requires a <= b
    ensures SumRewards(a) <= SumRewards(b)
    ensures a >= LAST_REWARDED_HEIGHT ==> SumRewards(a) == SumRewards(b)
  {
    if a < b {
      SumRewardsGrows(a, b - 1);
      RewardEnds(b - 1);
    }
  }

  /** The part of an epoch that begins at `start`. */
  lemma {:induction false} SumRewardsFrom(start: nat, e: nat, r: nat, reward: nat)
    requires start == e * HALVING_INTERVAL_BLOCKS && r <= HALVING_INTERVAL_BLOCKS && reward == EpochReward(e)
    ensures SumRewards(start + r) == SumRewards(start) + r * reward
  {
    if r > 0 {
      SumRewardsFrom(start, e, r - 1, reward);
      RewardInEpoch(start + (r - 1));
      assert (start + (r - 1)) / HALVING_INTERVAL_BLOCKS == e;
      OneMore(r, reward);
    }
  }

  lemma OneMore(r: nat, w: nat)
    requires r > 0
    ensures r * w == (r - 1) * w + w
  {}

  lemma {:induction false} SumRewardsOfEpochs(n: nat, e: nat)
    requires n == INITIAL_BLOCK_REWARD_BASE
    ensures SumRewards(e * HALVING_INTERVAL_BLOCKS) == HALVING_INTERVAL_BLOCKS * HalvingSum(n, e)
  {
    if e > 0 {
      SumRewardsOfEpochs(n, e - 1);
      SumRewardsFrom((e - 1) * HALVING_INTERVAL_BLOCKS, e - 1, HALVING_INTERVAL_BLOCKS, ShiftRight(n, e - 1));
    }
  }

  lemma WholeSchedule(n: nat, e: nat, height: nat)
    requires n == INITIAL_BLOCK_REWARD_BASE && e == 0 && height == (e + 25) * HALVING_INTERVAL_BLOCKS
    ensures SumRewards(height) == ALL_REWARDS
  {
    SumRewardsOfEpochs(n, e + 25);
    HalvingSumExact(n, e + 25);
    TwentyFiveHalvings(n, e);
  }

  /** No height ever owes more than 378000 * (2 * 25000000 - 12), and height 9,450,000 owes all of it. */
  lemma RewardsAreBounded(height: nat)
    ensures SumRewards(height) <= ALL_REWARDS
    ensures height >= LAST_REWARDED_HEIGHT ==> SumRewards(height) == ALL_REWARDS
    ensures ALL_REWARDS == MINEABLE_BASE - 4_536_000
  {
    WholeSchedule(INITIAL_BLOCK_REWARD_BASE, 0, LAST_REWARDED_HEIGHT);
    if height <= LAST_REWARDED_HEIGHT {
      SumRewardsGrows(height, LAST_REWARDED_HEIGHT);
    } else {
      SumRewardsGrows(LAST_REWARDED_HEIGHT, height);
    }
  }
}
