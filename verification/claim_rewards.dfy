/**
 * The `claim_rewards` instruction: settles the position against the pool and pays
 * out everything pending.
 */
module ClaimRewards {
  import opened Primitives
  import opened StakingErrors
  import opened StakingState

  /** `ClaimRewards::validate`: the pool is live and the position holds principal. */
  function Validate(pool: Pool, position: Position): (r: Outcome)
    ensures r == Pass <==> !pool.isPaused && position.stakedAmount > 0
    ensures pool.isPaused ==> r == Fail(StakingPaused)
    ensures !pool.isPaused && position.stakedAmount == 0 ==> r == Fail(InsufficientBalance)
  {
    if pool.isPaused then Fail(StakingPaused)
    else if position.stakedAmount == 0 then Fail(InsufficientBalance)
    else Pass
  }

  /**
   * The whole instruction: validate, advance the pool, reconcile the position, refuse
   * when nothing is pending, pay it all out, then bump the distributed counter.
   */
  function Transition(pool: Pool, position: Position, now: I64): (r: TxResult)
    ensures Validate(pool, position).Fail? ==> r == Reverted(Validate(pool, position).error)
    ensures Validate(pool, position) == Pass &&
            PendingRewards(position, AdvancePool(pool, now).accumulatedRewardsPerToken) == 0 ==>
              r == Reverted(NoRewardsToClaim)
    ensures r.Committed? <==>
              var owed := PendingRewards(position, AdvancePool(pool, now).accumulatedRewardsPerToken);
              Validate(pool, position) == Pass && 0 < owed && pool.totalRewardsDistributed + owed <= U64_MAX
    ensures r.Committed? ==>
              && r.transferred == PendingRewards(position, r.pool.accumulatedRewardsPerToken) > 0
              && r.position.pendingRewards == 0
              && r.pool.totalRewardsDistributed == pool.totalRewardsDistributed + r.transferred
              && r.pool == AdvancePool(pool, now).(totalRewardsDistributed := r.pool.totalRewardsDistributed)
              && r.pool.totalStaked == pool.totalStaked
              && r.position.owner == position.owner
              && r.position.stakedAmount == position.stakedAmount
              && r.position.xleashAmount == position.xleashAmount
              && r.position.userRewardsPerToken == r.pool.accumulatedRewardsPerToken
              && r.position.lastClaimTime == now
              && r.position.(pendingRewards := position.pendingRewards,
                             userRewardsPerToken := position.userRewardsPerToken,
                             lastClaimTime := position.lastClaimTime) == position
  {
    match Validate(pool, position)
    case Fail(e) => Reverted(e)
    case Pass =>
      var advanced := AdvancePool(pool, now);
      var reconciled := Reconcile(position, advanced.accumulatedRewardsPerToken);
      var claimable := reconciled.pendingRewards;
      if claimable == 0 then Reverted(NoRewardsToClaim)
      else
        var claimed := ClaimPosition(reconciled, claimable, now);
        if advanced.totalRewardsDistributed + claimable > U64_MAX then Reverted(MathOverflow)
        else
          Committed(advanced.(totalRewardsDistributed := advanced.totalRewardsDistributed + claimable),
                    claimed, claimable)
  }

  /**
   * A position that has unstaked everything cannot claim rewards it earned before,
   * however much is pending: the principal check comes first.
   */
  lemma ZeroPrincipalStrandsRewards(pool: Pool, position: Position, now: I64)
    requires !pool.isPaused && position.stakedAmount == 0 && position.pendingRewards > 0
    ensures Transition(pool, position, now) == Reverted(InsufficientBalance)
  {
  }

  /**
   * `claim_rewards::handler` on the pool and position accounts; `paid` is the amount
   * its token transfer moves to the user, which is not otherwise modelled.
   */
  method Handler(pool: GlobalStakingState, position: UserStakingPosition, now: I64)
    returns (r: Outcome, paid: U64)
    modifies pool, position
    ensures Transition(old(pool.Value()), old(position.Value()), now)
            == if r.Pass? then Committed(pool.Value(), position.Value(), paid) else Reverted(r.error)
    ensures r.Fail? ==> pool.Value() == old(pool.Value()) && position.Value() == old(position.Value()) && paid == 0
  {
    paid := 0;
    var savedPool, savedPosition := pool.Value(), position.Value();
    r := Validate(savedPool, savedPosition);
    if r.Fail? {
      return;
    }
    pool.UpdateRewards(now);
    position.UpdateRewards(pool);
    var claimableAmount := position.pendingRewards;
    if claimableAmount == 0 {
      pool.Store(savedPool);
      position.Store(savedPosition);
      return Fail(NoRewardsToClaim), 0;
    }
    position.ClaimRewards(claimableAmount, now);
    if pool.totalRewardsDistributed + claimableAmount > U64_MAX {
      pool.Store(savedPool);
      position.Store(savedPosition);
      return Fail(MathOverflow), 0;
    }
    pool.totalRewardsDistributed := pool.totalRewardsDistributed + claimableAmount;
    paid := claimableAmount;
  }
}
