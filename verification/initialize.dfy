/**
 * The `initialize` instruction: creates the pool account once and stores the
 * validated parameters with every counter at zero.
 */
module Initialize {
  import opened Primitives
  import opened StakingErrors
  import opened StakingState

  /** Largest accepted reward rate (one token per second per staked token). */
  const MAX_REWARD_RATE: int := 1_000_000_000
  /** Shortest accepted lock period: one day, in seconds. */
  const MIN_LOCK_PERIOD: int := 86_400
  /** Longest accepted lock period: four years of 365 days, in seconds. */
  const MAX_LOCK_PERIOD: int := 126_144_000

  /** `Initialize::validate` on the instruction arguments. */
  function Validate(rewardRate: U64, minStakeAmount: U64, maxStakeAmount: U64, lockPeriod: I64): (r: Outcome)
    ensures r == Pass <==>
              && rewardRate <= MAX_REWARD_RATE
              && 0 < minStakeAmount <= maxStakeAmount
              && MIN_LOCK_PERIOD <= lockPeriod <= MAX_LOCK_PERIOD
    ensures rewardRate > MAX_REWARD_RATE ==> r == Fail(InvalidRewardRate)
    ensures rewardRate <= MAX_REWARD_RATE && r != Pass ==> r == Fail(InvalidStakeAmount)
  {
    if rewardRate > MAX_REWARD_RATE then Fail(InvalidRewardRate)
    else if minStakeAmount == 0 then Fail(InvalidStakeAmount)
    else if maxStakeAmount < minStakeAmount then Fail(InvalidStakeAmount)
    else if !(MIN_LOCK_PERIOD <= lockPeriod && lockPeriod <= MAX_LOCK_PERIOD) then Fail(InvalidStakeAmount)
    else Pass
  }

  /**
   * The instruction against the pool account slot `existing`: account creation
   * fails when the account is already there, then the arguments are validated,
   * then the pool is written.
   */
  function Transition(
    existing: Option<Pool>,
    authority: Pubkey, leashMint: Pubkey, xleashMint: Pubkey, treasury: Pubkey,
    rewardRate: U64, minStakeAmount: U64, maxStakeAmount: U64, lockPeriod: I64, now: I64): (r: Result<Pool, Error>)
    ensures existing.Some? ==> r == Err(AccountAlreadyInUse)
    ensures existing.None? && Validate(rewardRate, minStakeAmount, maxStakeAmount, lockPeriod).Fail? ==>
              r == Err(Program(Validate(rewardRate, minStakeAmount, maxStakeAmount, lockPeriod).error))
    ensures r.Ok? <==> existing.None? && Validate(rewardRate, minStakeAmount, maxStakeAmount, lockPeriod) == Pass
    ensures r.Ok? ==>
              var p := r.value;
              && p.authority == authority && p.leashMint == leashMint
              && p.xleashMint == xleashMint && p.treasury == treasury
              && p.rewardRate == rewardRate && p.minStakeAmount == minStakeAmount
              && p.maxStakeAmount == maxStakeAmount && p.lockPeriod == lockPeriod
              && p.totalStaked == 0 && p.totalXleashMinted == 0 && p.accumulatedRewardsPerToken == 0
              && p.totalRewardsDistributed == 0 && p.lpFeesCollected == 0
              && !p.isPaused && p.lastUpdateTime == now
    ensures r.Ok? ==> r.value.rewardRate <= MAX_REWARD_RATE && 0 < r.value.minStakeAmount <= r.value.maxStakeAmount
  {
    if existing.Some? then Err(AccountAlreadyInUse)
    else
      match Validate(rewardRate, minStakeAmount, maxStakeAmount, lockPeriod)
      case Fail(e) => Err(Program(e))
      case Pass => Ok(InitialPool(authority, leashMint, xleashMint, treasury,
                                  rewardRate, minStakeAmount, maxStakeAmount, lockPeriod, now))
  }

  /**
   * `initialize::handler`. The pool account is created (`init`), so the handler
   * fails when `existing` already holds one; otherwise it returns the new account.
   */
  method Handler(
    existing: Option<GlobalStakingState>,
    authority: Pubkey, leashMint: Pubkey, xleashMint: Pubkey, treasury: Pubkey,
    rewardRate: U64, minStakeAmount: U64, maxStakeAmount: U64, lockPeriod: I64, now: I64)
    returns (r: Result<GlobalStakingState, Error>)
    ensures existing.Some? ==> r == Err(AccountAlreadyInUse)
    ensures existing.None? ==>
              match Transition(None, authority, leashMint, xleashMint, treasury,
                               rewardRate, minStakeAmount, maxStakeAmount, lockPeriod, now)
              case Ok(p) => r.Ok? && fresh(r.value) && r.value.Value() == p
              case Err(e) => r == Err(e)
  {
    if existing.Some? {
      return Err(AccountAlreadyInUse);
    }
    var check := Validate(rewardRate, minStakeAmount, maxStakeAmount, lockPeriod);
    if check.Fail? {
      return Err(Program(check.error));
    }
    var account := new GlobalStakingState.Zeroed();
    account.Initialize(authority, leashMint, xleashMint, treasury,
                       rewardRate, minStakeAmount, maxStakeAmount, lockPeriod, now);
    return Ok(account);
  }
}
