/**
 * The `unstake` instruction: burns xLEASH, returns LEASH one for one, and shrinks
 * the participant's principal after settling the rewards earned on the old balance.
 */
module Unstake {
  import opened Primitives
  import opened StakingErrors
  import opened StakingState

  /**
   * `Unstake::validate`, with the instruction's `amount`, the user's xLEASH token
   * balance and the clock reading `now` it consults for the lock.
   */
  function Validate(pool: Pool, position: Position, amount: U64, xleashBalance: U64, now: I64): (r: Outcome)
    ensures r == Pass <==>
              && !pool.isPaused
              && 0 < amount <= xleashBalance
              && amount <= position.stakedAmount
              && (position.isLocked ==> position.lockEndTime <= now)
    ensures pool.isPaused ==> r == Fail(StakingPaused)
    ensures !pool.isPaused && amount == 0 ==> r == Fail(InvalidStakeAmount)
    ensures !pool.isPaused && amount > 0 && (xleashBalance < amount || position.stakedAmount < amount) ==>
              r == Fail(InsufficientBalance)
    ensures r == Fail(LockPeriodNotMet) <==>
              && !pool.isPaused
              && 0 < amount <= xleashBalance
              && amount <= position.stakedAmount
              && position.isLocked && now < position.lockEndTime
  {
    if pool.isPaused then Fail(StakingPaused)
    else if amount == 0 then Fail(InvalidStakeAmount)
    else if xleashBalance < amount then Fail(InsufficientBalance)
    else if position.stakedAmount < amount then Fail(InsufficientBalance)
    else if position.isLocked && now < position.lockEndTime then Fail(LockPeriodNotMet)
    else Pass
  }

  /**
   * The whole instruction: validate, advance the pool, reconcile the position,
   * remove the principal, then shrink both pool totals with checked subtractions.
   */
  function Transition(
    pool: Pool, position: Position, amount: U64, xleashBalance: U64, now: I64): (r: TxResult)
    ensures Validate(pool, position, amount, xleashBalance, now).Fail? ==>
              r == Reverted(Validate(pool, position, amount, xleashBalance, now).error)
    ensures r.Committed? <==>
              && Validate(pool, position, amount, xleashBalance, now) == Pass
              && amount <= pool.totalStaked && amount <= pool.totalXleashMinted
    ensures r.Reverted? && Validate(pool, position, amount, xleashBalance, now) == Pass ==> r.error == MathOverflow
    ensures r.Committed? ==>
              && r.transferred == amount
              && r.pool.totalStaked + amount == pool.totalStaked
              && r.pool.totalXleashMinted + amount == pool.totalXleashMinted
              && r.pool == AdvancePool(pool, now).(totalStaked := r.pool.totalStaked,
                                                    totalXleashMinted := r.pool.totalXleashMinted)
    ensures r.Committed? ==>
              && r.position.stakedAmount + amount == position.stakedAmount
              && (amount <= position.xleashAmount ==> r.position.xleashAmount + amount == position.xleashAmount)
              && r.position.userRewardsPerToken == r.pool.accumulatedRewardsPerToken
              && r.position.pendingRewards == PendingRewards(position, r.pool.accumulatedRewardsPerToken)
              && r.position.owner == position.owner
              && r.position.isLocked == position.isLocked && r.position.lockEndTime == position.lockEndTime
              && (position.xleashAmount < amount ==> r.position.xleashAmount == 0)
              && r.position.(stakedAmount := position.stakedAmount, xleashAmount := position.xleashAmount,
                             userRewardsPerToken := position.userRewardsPerToken,
                             pendingRewards := position.pendingRewards) == position
  {
    match Validate(pool, position, amount, xleashBalance, now)
    case Fail(e) => Reverted(e)
    case Pass =>
      var advanced := AdvancePool(pool, now);
      var reconciled := Reconcile(position, advanced.accumulatedRewardsPerToken);
      var leashAmount := amount;
      var unstaked := UnstakePosition(reconciled, amount, amount);
      if advanced.totalStaked < amount then Reverted(MathOverflow)
      else if advanced.totalXleashMinted < amount then Reverted(MathOverflow)
      else
        Committed(advanced.(totalStaked := advanced.totalStaked - amount,
                            totalXleashMinted := advanced.totalXleashMinted - amount),
                  unstaked, leashAmount)
  }

  /** A position nothing ever locks can always be unstaked from, whatever the clock reads. */
  lemma UnlockedNeverWaits(pool: Pool, position: Position, amount: U64, xleashBalance: U64, now: I64)
    requires !position.isLocked
    ensures Transition(pool, position, amount, xleashBalance, now) != Reverted(LockPeriodNotMet)
  {
  }

  /** `unstake::handler` on the pool and position accounts; the token burn and transfer are not modelled. */
  method Handler(
    pool: GlobalStakingState, position: UserStakingPosition,
    amount: U64, xleashBalance: U64, now: I64) returns (r: Outcome)
    modifies pool, position
    ensures Transition(old(pool.Value()), old(position.Value()), amount, xleashBalance, now)
            == if r.Pass? then Committed(pool.Value(), position.Value(), amount) else Reverted(r.error)
    ensures r.Fail? ==> pool.Value() == old(pool.Value()) && position.Value() == old(position.Value())
  {
    var savedPool, savedPosition := pool.Value(), position.Value();
    r := Validate(savedPool, savedPosition, amount, xleashBalance, now);
    if r.Fail? {
      return;
    }
    pool.UpdateRewards(now);
    position.UpdateRewards(pool);
    var leashAmount := amount;
    position.Unstake(amount, amount);
    if pool.totalStaked < amount {
      pool.Store(savedPool);
      position.Store(savedPosition);
      return Fail(MathOverflow);
    }
    pool.totalStaked := pool.totalStaked - amount;
    if pool.totalXleashMinted < amount {
      pool.Store(savedPool);
      position.Store(savedPosition);
      return Fail(MathOverflow);
    }
    pool.totalXleashMinted := pool.totalXleashMinted - amount;
  }
}
