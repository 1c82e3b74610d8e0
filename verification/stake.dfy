/**
 * The `stake` instruction: deposits LEASH, mints xLEASH one for one, and grows the
 * participant's principal after settling the rewards earned so far.
 */
module Stake {
  import opened Primitives
  import opened StakingErrors
  import opened StakingState

  /** `Stake::validate`, with the instruction's `amount` and the user's LEASH token balance. */
  function Validate(pool: Pool, amount: U64, leashBalance: U64): (r: Outcome)
    ensures r == Pass <==>
              && !pool.isPaused
              && pool.minStakeAmount <= amount <= pool.maxStakeAmount
              && amount <= leashBalance
              && pool.totalStaked + amount <= pool.maxStakeAmount
    ensures pool.isPaused ==> r == Fail(StakingPaused)
    ensures !pool.isPaused && (amount < pool.minStakeAmount || amount > pool.maxStakeAmount) ==>
              r == Fail(InvalidStakeAmount)
    ensures !pool.isPaused && pool.minStakeAmount <= amount <= pool.maxStakeAmount && leashBalance < amount ==>
              r == Fail(InsufficientBalance)
    ensures !pool.isPaused && pool.minStakeAmount <= amount <= pool.maxStakeAmount && amount <= leashBalance ==>
              (r == Fail(MathOverflow) <==> pool.totalStaked + amount > U64_MAX) &&
              (r == Fail(StakingPoolFull) <==> pool.maxStakeAmount < pool.totalStaked + amount <= U64_MAX)
  {
    if pool.isPaused then Fail(StakingPaused)
    else if amount < pool.minStakeAmount then Fail(InvalidStakeAmount)
    else if amount > pool.maxStakeAmount then Fail(InvalidStakeAmount)
    else if leashBalance < amount then Fail(InsufficientBalance)
    else if pool.totalStaked + amount > U64_MAX then Fail(MathOverflow)
    else if pool.totalStaked + amount > pool.maxStakeAmount then Fail(StakingPoolFull)
    else Pass
  }

  /**
   * The position the handler reconciles: a never-initialized account (owner is the
   * default key) is first initialized for `user` and the pool at `poolKey`.
   */
  function Opened(position: Position, user: Pubkey, poolKey: Pubkey, now: I64): Position
  {
    if position.owner == DEFAULT_PUBKEY then FreshPosition(user, poolKey, now) else position
  }

  /**
   * The whole instruction: validate, advance the pool, open the position if new,
   * reconcile it, add the principal, then grow both pool totals with checked adds.
   */
  function Transition(
    pool: Pool, position: Position, user: Pubkey, poolKey: Pubkey,
    amount: U64, leashBalance: U64, now: I64): (r: TxResult)
    ensures Validate(pool, amount, leashBalance).Fail? ==> r == Reverted(Validate(pool, amount, leashBalance).error)
    ensures r.Committed? <==>
              Validate(pool, amount, leashBalance) == Pass && pool.totalXleashMinted + amount <= U64_MAX
    ensures r.Reverted? && Validate(pool, amount, leashBalance) == Pass ==> r.error == MathOverflow
    ensures r.Committed? ==>
              && r.transferred == amount
              && r.pool.totalStaked == pool.totalStaked + amount
              && r.pool.totalXleashMinted == pool.totalXleashMinted + amount
              && pool.minStakeAmount <= amount <= r.pool.totalStaked <= r.pool.maxStakeAmount
              && r.pool == AdvancePool(pool, now).(totalStaked := r.pool.totalStaked,
                                                    totalXleashMinted := r.pool.totalXleashMinted)
    ensures r.Committed? ==>
              var start := Opened(position, user, poolKey, now);
              && r.position.owner == start.owner
              && r.position.userRewardsPerToken == r.pool.accumulatedRewardsPerToken
              && r.position.pendingRewards == PendingRewards(start, r.pool.accumulatedRewardsPerToken)
              && PendingRewards(r.position, r.pool.accumulatedRewardsPerToken) == r.position.pendingRewards
              && r.position.stakingStartTime == now
              && (start.stakedAmount + amount <= U64_MAX ==> r.position.stakedAmount == start.stakedAmount + amount)
              && (start.xleashAmount + amount <= U64_MAX ==> r.position.xleashAmount == start.xleashAmount + amount)
              && (start.stakedAmount + amount > U64_MAX ==> r.position.stakedAmount == 0)
              && (start.xleashAmount + amount > U64_MAX ==> r.position.xleashAmount == 0)
              && r.position.(stakedAmount := start.stakedAmount, xleashAmount := start.xleashAmount,
                             userRewardsPerToken := start.userRewardsPerToken,
                             pendingRewards := start.pendingRewards,
                             stakingStartTime := start.stakingStartTime) == start
    ensures r.Committed? && position.owner != DEFAULT_PUBKEY ==>
              && r.position.globalStakingState == position.globalStakingState
              && r.position.isLocked == position.isLocked && r.position.lockEndTime == position.lockEndTime
              && r.position.lastClaimTime == position.lastClaimTime
    ensures r.Committed? && position.owner == DEFAULT_PUBKEY ==>
              && r.position.owner == user && r.position.globalStakingState == poolKey
              && r.position.pendingRewards == 0
              && r.position.stakedAmount == amount && r.position.xleashAmount == amount
              && !r.position.isLocked && r.position.lockEndTime == 0 && r.position.lastClaimTime == now
  {
    match Validate(pool, amount, leashBalance)
    case Fail(e) => Reverted(e)
    case Pass =>
      var advanced := AdvancePool(pool, now);
      var xleashAmount := amount;
      var reconciled := Reconcile(Opened(position, user, poolKey, now), advanced.accumulatedRewardsPerToken);
      var staked := StakePosition(reconciled, amount, xleashAmount, now);
      // validate bounded total_staked + amount by max_stake_amount, so that checked_add cannot fail
      if advanced.totalXleashMinted + xleashAmount > U64_MAX then Reverted(MathOverflow)
      else
        Committed(advanced.(totalStaked := advanced.totalStaked + amount,
                            totalXleashMinted := advanced.totalXleashMinted + xleashAmount),
                  staked, amount)
  }

  /** `stake::handler` on the pool and position accounts; the token transfer and mint are not modelled. */
  method Handler(
    pool: GlobalStakingState, position: UserStakingPosition, user: Pubkey, poolKey: Pubkey,
    amount: U64, leashBalance: U64, now: I64) returns (r: Outcome)
    modifies pool, position
    ensures Transition(old(pool.Value()), old(position.Value()), user, poolKey, amount, leashBalance, now)
            == if r.Pass? then Committed(pool.Value(), position.Value(), amount) else Reverted(r.error)
    ensures r.Fail? ==> pool.Value() == old(pool.Value()) && position.Value() == old(position.Value())
  {
    var savedPool, savedPosition := pool.Value(), position.Value();
    r := Validate(savedPool, amount, leashBalance);
    if r.Fail? {
      return;
    }
    pool.UpdateRewards(now);
    var xleashAmount := amount;
    if position.owner == DEFAULT_PUBKEY {
      position.Initialize(user, poolKey, now);
    }
    position.UpdateRewards(pool);
    position.Stake(amount, xleashAmount, now);
    // validate bounded total_staked + amount by max_stake_amount, so that checked_add cannot fail
    assert pool.totalStaked + amount <= pool.maxStakeAmount;
    pool.totalStaked := pool.totalStaked + amount;
    if pool.totalXleashMinted + xleashAmount > U64_MAX {
      pool.Store(savedPool);
      position.Store(savedPosition);
      return Fail(MathOverflow);
    }
    pool.totalXleashMinted := pool.totalXleashMinted + xleashAmount;
  }

  /**
   * `stake::handler` for a participant with no position account yet: `init_if_needed`
   * creates the account zero-filled, and the handler then opens it for `user`.
   */
  method HandlerCreatingPosition(
    pool: GlobalStakingState, user: Pubkey, poolKey: Pubkey,
    amount: U64, leashBalance: U64, now: I64) returns (position: UserStakingPosition, r: Outcome)
    modifies pool
    ensures fresh(position)
    ensures Transition(old(pool.Value()), ZeroedPosition(), user, poolKey, amount, leashBalance, now)
            == if r.Pass? then Committed(pool.Value(), position.Value(), amount) else Reverted(r.error)
    ensures r.Pass? ==> position.owner == user && position.stakedAmount == amount && position.pendingRewards == 0
    ensures r.Fail? ==> pool.Value() == old(pool.Value()) && position.Value() == ZeroedPosition()
  {
    position := new UserStakingPosition.Zeroed();
    r := Handler(pool, position, user, poolKey, amount, leashBalance, now);
  }
}
