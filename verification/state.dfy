/**
 * The two account records of the staking program (the pool and a participant's
 * position), the accrual arithmetic that reconciles them, and the in-place
 * mutators the instruction handlers call.
 *
 * Each record appears twice: as a value (`Pool`, `Position`), on which the
 * arithmetic is specified by functions and lemmas, and as a class holding the
 * account's fields (`GlobalStakingState`, `UserStakingPosition`), whose methods
 * assign those fields and promise that the new value is the specifying function
 * of the old one.
 */
module StakingState {
  import opened Primitives
  import opened StakingErrors

  /** The pool account's data. The PDA bump and reserved bytes are not modelled. */
  datatype Pool = Pool(
    authority: Pubkey,
    leashMint: Pubkey,
    xleashMint: Pubkey,
    treasury: Pubkey,
    rewardRate: U64,
    minStakeAmount: U64,
    maxStakeAmount: U64,
    lockPeriod: I64,
    totalStaked: U64,
    totalXleashMinted: U64,
    accumulatedRewardsPerToken: U128,
    lastUpdateTime: I64,
    totalRewardsDistributed: U64,
    lpFeesCollected: U64,
    isPaused: bool)

  /** One participant's position account. The PDA bump and reserved bytes are not modelled. */
  datatype Position = Position(
    owner: Pubkey,
    globalStakingState: Pubkey,
    stakedAmount: U64,
    xleashAmount: U64,
    userRewardsPerToken: U128,
    pendingRewards: U64,
    stakingStartTime: I64,
    lastClaimTime: I64,
    isLocked: bool,
    lockEndTime: I64)

  /**
   * What a participant instruction does: it commits new pool and position records
   * and moves `transferred` tokens through the token program, or it fails and the
   * runtime discards every write.
   */
  datatype TxResult =
    | Committed(pool: Pool, position: Position, transferred: nat)
    | Reverted(error: StakingError)

  // ---------------------------------------------------------------------------
  // The pool record
  // ---------------------------------------------------------------------------

  /** The pool as `GlobalStakingState::initialize` leaves it. */
  function InitialPool(
    authority: Pubkey, leashMint: Pubkey, xleashMint: Pubkey, treasury: Pubkey,
    rewardRate: U64, minStakeAmount: U64, maxStakeAmount: U64, lockPeriod: I64, now: I64): Pool
  {
    Pool(authority, leashMint, xleashMint, treasury, rewardRate, minStakeAmount, maxStakeAmount,
         lockPeriod, 0, 0, 0, now, 0, 0, false)
  }

  /**
   * Reference definition of the reward-per-token increment owed for the time since
   * the last update: `rate * elapsed` when time has moved forward and something is
   * staked, nothing otherwise.
   */
  ghost function Accrual(p: Pool, now: I64): nat
  {
    var elapsed := now - p.lastUpdateTime;
    if elapsed > 0 && p.totalStaked > 0 then p.rewardRate * elapsed else 0
  }

  /** `GlobalStakingState::update_rewards` with the clock reading `now`. */
  function AdvancePool(p: Pool, now: I64): (q: Pool)
    ensures q.lastUpdateTime == now
    ensures q.(accumulatedRewardsPerToken := p.accumulatedRewardsPerToken, lastUpdateTime := p.lastUpdateTime) == p
    ensures p.accumulatedRewardsPerToken + Accrual(p, now) <= U128_MAX ==>
              q.accumulatedRewardsPerToken == p.accumulatedRewardsPerToken + Accrual(p, now)
    ensures p.accumulatedRewardsPerToken + Accrual(p, now) > U128_MAX ==> q.accumulatedRewardsPerToken == 0
  {
    var timeDiff := now - p.lastUpdateTime;
    if timeDiff > 0 && p.totalStaked > 0 then
      MulFitsU128(p.rewardRate, timeDiff);
      var rewards := MulOrZero(p.rewardRate, timeDiff, U128_MAX);
      p.(accumulatedRewardsPerToken := AddOrZero(p.accumulatedRewardsPerToken, rewards, U128_MAX),
         lastUpdateTime := now)
    else
      p.(lastUpdateTime := now)
  }

  /** `GlobalStakingState::add_lp_fees`. */
  function AddLpFeesTo(p: Pool, amount: U64): Pool
  {
    p.(lpFeesCollected := AddOrZero(p.lpFeesCollected, amount, U64_MAX))
  }

  /** A second update at the same instant accrues nothing. */
  lemma AdvancePoolIdempotent(p: Pool, now: I64)
    ensures AdvancePool(AdvancePool(p, now), now) == AdvancePool(p, now)
  {
  }

  /** The accumulator never decreases across an update, except that an overflowing sum resets it to 0. */
  lemma AdvancePoolMonotoneOrReset(p: Pool, now: I64)
    ensures var q := AdvancePool(p, now);
            q.accumulatedRewardsPerToken >= p.accumulatedRewardsPerToken || q.accumulatedRewardsPerToken == 0
  {
  }

  /**
   * After the overflow reset, a position whose snapshot is above 0 is ahead of the
   * accumulator: reconciling it adds nothing, so what it had accrued but not yet
   * reconciled is lost.
   */
  lemma ResetStrandsAccrual(p: Pool, pos: Position, now: I64)
    requires p.accumulatedRewardsPerToken + Accrual(p, now) > U128_MAX
    requires pos.userRewardsPerToken > 0
    ensures var q := AdvancePool(p, now);
            && q.accumulatedRewardsPerToken == 0 < pos.userRewardsPerToken
            && Reconcile(pos, q.accumulatedRewardsPerToken).pendingRewards == pos.pendingRewards
  {
  }

  /**
   * No accrual window is missed or counted twice while the clock moves forward:
   * updating at `t1` and then at `t2` gives the pool a single update at `t2` gives.
   */
  lemma {:induction false} AdvancePoolSplit(p: Pool, t1: I64, t2: I64)
    requires p.lastUpdateTime <= t1 <= t2
    requires p.accumulatedRewardsPerToken + Accrual(p, t2) <= U128_MAX
    ensures AdvancePool(AdvancePool(p, t1), t2) == AdvancePool(p, t2)
  {
    var q := AdvancePool(p, t1);
    var t0 := p.lastUpdateTime;
    if p.totalStaked > 0 {
      calc {
        p.rewardRate * (t2 - t0);
        p.rewardRate * ((t1 - t0) + (t2 - t1));
        p.rewardRate * (t1 - t0) + p.rewardRate * (t2 - t1);
      }
      MulMonotone(t1 - t0, t2 - t0, p.rewardRate);
      assert Accrual(p, t1) + Accrual(q, t2) == Accrual(p, t2);
    }
  }

  /**
   * Since `update_rewards` stores `now` even when the clock reads earlier than the
   * last update, a backward reading makes the next forward update pay again for an
   * interval that was already paid for.
   */
  lemma {:induction false} AdvancePoolBackwardClockRepays(p: Pool, t1: I64, t2: I64)
    requires t1 < p.lastUpdateTime < t2
    requires p.totalStaked > 0 && p.rewardRate > 0
    requires p.accumulatedRewardsPerToken + p.rewardRate * (t2 - t1) <= U128_MAX
    ensures AdvancePool(AdvancePool(p, t1), t2).accumulatedRewardsPerToken
            > AdvancePool(p, t2).accumulatedRewardsPerToken
  {
    var t0, rate := p.lastUpdateTime, p.rewardRate;
    var back := AdvancePool(p, t1);
    assert back.accumulatedRewardsPerToken == p.accumulatedRewardsPerToken;
    assert back == p.(lastUpdateTime := t1);
    var late, early := t2 - t0, t0 - t1;
    MulDistributes(rate, late, early);
    MulPositive(rate, early);
    assert Accrual(back, t2) == rate * (late + early) == rate * late + rate * early;
    assert Accrual(p, t2) == rate * late;
  }

  // ---------------------------------------------------------------------------
  // The position record
  // ---------------------------------------------------------------------------

  /** A position account as `init_if_needed` allocates it: every byte zero. */
  function ZeroedPosition(): Position
  {
    Position(DEFAULT_PUBKEY, DEFAULT_PUBKEY, 0, 0, 0, 0, 0, 0, false, 0)
  }

  /** The position as `UserStakingPosition::initialize` leaves it. */
  function FreshPosition(owner: Pubkey, pool: Pubkey, now: I64): Position
  {
    Position(owner, pool, 0, 0, 0, 0, now, now, false, 0)
  }

  /** The accumulator growth a position has not yet been paid for; 0 when its snapshot is ahead. */
  function Delta(acc: U128, snapshot: U128): nat
  {
    if snapshot <= acc then acc - snapshot else 0
  }

  /**
   * `UserStakingPosition::calculate_pending_rewards` against the pool accumulator
   * `acc`: the stored pending rewards plus principal times the unpaid accumulator
   * growth, with no division by any fixed-point scale.
   */
  function PendingRewards(pos: Position, acc: U128): (r: U64)
    ensures r <= pos.pendingRewards + pos.stakedAmount * Delta(acc, pos.userRewardsPerToken)
    ensures pos.pendingRewards + pos.stakedAmount * Delta(acc, pos.userRewardsPerToken) <= U64_MAX ==>
              r == pos.pendingRewards + pos.stakedAmount * Delta(acc, pos.userRewardsPerToken)
    ensures pos.stakedAmount * Delta(acc, pos.userRewardsPerToken) > U128_MAX ==> r == pos.pendingRewards
    ensures Delta(acc, pos.userRewardsPerToken) == 0 || pos.stakedAmount == 0 ==> r == pos.pendingRewards
    ensures pos.pendingRewards + pos.stakedAmount * Delta(acc, pos.userRewardsPerToken) <= U128_MAX ==>
              r == (pos.pendingRewards + pos.stakedAmount * Delta(acc, pos.userRewardsPerToken)) % U64_MODULUS
    ensures var product := pos.stakedAmount * Delta(acc, pos.userRewardsPerToken);
            product <= U128_MAX < product + pos.pendingRewards ==> r == 0
  {
    var rewardsPerTokenDiff := SubOrZero(acc, pos.userRewardsPerToken);
    var pending := MulOrZero(pos.stakedAmount, rewardsPerTokenDiff, U128_MAX);
    TruncateU64(AddOrZero(pending, pos.pendingRewards, U128_MAX))
  }

  /** `UserStakingPosition::update_rewards` against the pool accumulator `acc`. */
  function Reconcile(pos: Position, acc: U128): (q: Position)
    ensures q.userRewardsPerToken == acc
    ensures q.pendingRewards == PendingRewards(pos, acc)
    ensures q.(pendingRewards := pos.pendingRewards, userRewardsPerToken := pos.userRewardsPerToken) == pos
  {
    pos.(pendingRewards := PendingRewards(pos, acc), userRewardsPerToken := acc)
  }

  /** `UserStakingPosition::stake` at clock reading `now`. */
  function StakePosition(pos: Position, amount: U64, xleashAmount: U64, now: I64): Position
  {
    pos.(stakedAmount := AddOrZero(pos.stakedAmount, amount, U64_MAX),
         xleashAmount := AddOrZero(pos.xleashAmount, xleashAmount, U64_MAX),
         stakingStartTime := now)
  }

  /** `UserStakingPosition::unstake`. */
  function UnstakePosition(pos: Position, amount: U64, xleashAmount: U64): Position
  {
    pos.(stakedAmount := SubOrZero(pos.stakedAmount, amount),
         xleashAmount := SubOrZero(pos.xleashAmount, xleashAmount))
  }

  /** `UserStakingPosition::claim_rewards` at clock reading `now`. */
  function ClaimPosition(pos: Position, amount: U64, now: I64): Position
  {
    pos.(pendingRewards := SubOrZero(pos.pendingRewards, amount), lastClaimTime := now)
  }

  /** Reconciling twice against the same accumulator changes nothing the second time. */
  lemma ReconcileIdempotent(pos: Position, acc: U128)
    ensures Reconcile(Reconcile(pos, acc), acc) == Reconcile(pos, acc)
  {
  }

  /**
   * Lazy accrual is path independent: reconciling at `a1` and later at `a2` pays
   * what a single reconciliation at `a2` pays, as long as the total fits in a u64.
   */
  lemma {:induction false} ReconcileSplit(pos: Position, a1: U128, a2: U128)
    requires pos.userRewardsPerToken <= a1 <= a2
    requires pos.pendingRewards + pos.stakedAmount * (a2 - pos.userRewardsPerToken) <= U64_MAX
    ensures Reconcile(Reconcile(pos, a1), a2) == Reconcile(pos, a2)
  {
    var s, d1, d2 := pos.stakedAmount, a1 - pos.userRewardsPerToken, a2 - a1;
    MulDistributes(s, d1, d2);
    MulMonotone(d1, d1 + d2, s);
    var q := Reconcile(pos, a1);
    assert q.pendingRewards == pos.pendingRewards + s * d1;
    assert PendingRewards(q, a2) == pos.pendingRewards + s * (d1 + d2);
  }

  /**
   * The `as u64` cast wraps: a reconciliation whose exact sum exceeds u64 pays
   * that sum modulo 2^64. Here one day at rate 1000 on 10^12 staked units.
   */
  lemma PendingRewardsWraps()
    ensures var pos := Position(1, 2, 1_000_000_000_000, 1_000_000_000_000, 0, 0, 0, 0, false, 0);
            var exact := 1_000_000_000_000 * 86_400_000;
            exact > U64_MAX && PendingRewards(pos, 86_400_000) == exact - 4 * U64_MODULUS
  {
  }

  /** Staking and then unstaking the same amount restores the principal and the receipt balance. */
  lemma StakeUnstakeRoundTrip(pos: Position, amount: U64, now: I64)
    requires pos.stakedAmount + amount <= U64_MAX && pos.xleashAmount + amount <= U64_MAX
    ensures UnstakePosition(StakePosition(pos, amount, amount, now), amount, amount)
            == pos.(stakingStartTime := now)
  {
  }

  /** Claiming the whole pending balance leaves nothing pending; claiming more also leaves 0, never a debt. */
  lemma ClaimClearsPending(pos: Position, amount: U64, now: I64)
    requires amount >= pos.pendingRewards
    ensures ClaimPosition(pos, amount, now).pendingRewards == 0
  {
  }

  // ---------------------------------------------------------------------------
  // The accounts, updated in place
  // ---------------------------------------------------------------------------

  /** The pool account (`GlobalStakingState`). */
  class GlobalStakingState {
    var authority: Pubkey
    var leashMint: Pubkey
    var xleashMint: Pubkey
    var treasury: Pubkey
    var rewardRate: U64
    var minStakeAmount: U64
    var maxStakeAmount: U64
    var lockPeriod: I64
    var totalStaked: U64
    var totalXleashMinted: U64
    var accumulatedRewardsPerToken: U128
    var lastUpdateTime: I64
    var totalRewardsDistributed: U64
    var lpFeesCollected: U64
    var isPaused: bool

    /** The account's data as a record. */
    function Value(): Pool
      reads this
    {
      Pool(authority, leashMint, xleashMint, treasury, rewardRate, minStakeAmount, maxStakeAmount,
           lockPeriod, totalStaked, totalXleashMinted, accumulatedRewardsPerToken, lastUpdateTime,
           totalRewardsDistributed, lpFeesCollected, isPaused)
    }

    /** A pool account as account creation allocates it: every byte zero. */
    constructor Zeroed()
      ensures Value() == Pool(0, 0, 0, 0, 0, 0, 0, 0, 0, 0, 0, 0, 0, 0, false)
    {
      authority, leashMint, xleashMint, treasury := 0, 0, 0, 0;
      rewardRate, minStakeAmount, maxStakeAmount, lockPeriod := 0, 0, 0, 0;
      totalStaked, totalXleashMinted, accumulatedRewardsPerToken := 0, 0, 0;
      lastUpdateTime, totalRewardsDistributed, lpFeesCollected := 0, 0, 0;
      isPaused := false;
    }

    /**
     * Writes every field of the account from a record. The handlers also use it to put
     * back the record a failed transaction started from, as the runtime discards its writes.
     */
    method Store(saved: Pool)
      modifies this
      ensures Value() == saved
    {
      StoreParameters(saved);
      StoreCounters(saved);
    }

    /** Writes the keys and the parameters fixed at initialization. */
    method StoreParameters(saved: Pool)
      modifies this
      ensures authority == saved.authority && leashMint == saved.leashMint
      ensures xleashMint == saved.xleashMint && treasury == saved.treasury
      ensures rewardRate == saved.rewardRate && minStakeAmount == saved.minStakeAmount
      ensures maxStakeAmount == saved.maxStakeAmount && lockPeriod == saved.lockPeriod
      ensures totalStaked == old(totalStaked) && totalXleashMinted == old(totalXleashMinted)
      ensures accumulatedRewardsPerToken == old(accumulatedRewardsPerToken)
      ensures lastUpdateTime == old(lastUpdateTime) && isPaused == old(isPaused)
      ensures totalRewardsDistributed == old(totalRewardsDistributed) && lpFeesCollected == old(lpFeesCollected)
    {
      authority, leashMint, xleashMint, treasury := saved.authority, saved.leashMint, saved.xleashMint, saved.treasury;
      rewardRate, minStakeAmount, maxStakeAmount := saved.rewardRate, saved.minStakeAmount, saved.maxStakeAmount;
      lockPeriod := saved.lockPeriod;
    }

    /** Writes the totals, the accumulator, its timestamp and the pause flag. */
    method StoreCounters(saved: Pool)
      modifies this
      ensures totalStaked == saved.totalStaked && totalXleashMinted == saved.totalXleashMinted
      ensures accumulatedRewardsPerToken == saved.accumulatedRewardsPerToken
      ensures lastUpdateTime == saved.lastUpdateTime && isPaused == saved.isPaused
      ensures totalRewardsDistributed == saved.totalRewardsDistributed && lpFeesCollected == saved.lpFeesCollected
      ensures authority == old(authority) && leashMint == old(leashMint)
      ensures xleashMint == old(xleashMint) && treasury == old(treasury)
      ensures rewardRate == old(rewardRate) && minStakeAmount == old(minStakeAmount)
      ensures maxStakeAmount == old(maxStakeAmount) && lockPeriod == old(lockPeriod)
    {
      totalStaked, totalXleashMinted := saved.totalStaked, saved.totalXleashMinted;
      accumulatedRewardsPerToken, lastUpdateTime := saved.accumulatedRewardsPerToken, saved.lastUpdateTime;
      totalRewardsDistributed, lpFeesCollected := saved.totalRewardsDistributed, saved.lpFeesCollected;
      isPaused := saved.isPaused;
    }

    /** `GlobalStakingState::initialize`: stores the parameters and zeroes every counter. */
    method Initialize(
      authority: Pubkey, leashMint: Pubkey, xleashMint: Pubkey, treasury: Pubkey,
      rewardRate: U64, minStakeAmount: U64, maxStakeAmount: U64, lockPeriod: I64, now: I64)
      modifies this
      ensures Value() == InitialPool(authority, leashMint, xleashMint, treasury,
                                     rewardRate, minStakeAmount, maxStakeAmount, lockPeriod, now)
    {
      Store(InitialPool(authority, leashMint, xleashMint, treasury,
                        rewardRate, minStakeAmount, maxStakeAmount, lockPeriod, now));
    }

    /** `GlobalStakingState::update_rewards` at clock reading `now`. */
    method UpdateRewards(now: I64)
      modifies this
      ensures Value() == AdvancePool(old(Value()), now)
    {
      var timeDiff := now - lastUpdateTime;
      if timeDiff > 0 && totalStaked > 0 {
        MulFitsU128(rewardRate, timeDiff);
        var rewards := MulOrZero(rewardRate, timeDiff, U128_MAX);
        accumulatedRewardsPerToken := AddOrZero(accumulatedRewardsPerToken, rewards, U128_MAX);
      }
      lastUpdateTime := now;
    }

    /** `GlobalStakingState::add_lp_fees`. */
    method AddLpFees(amount: U64)
      modifies this
      ensures Value() == AddLpFeesTo(old(Value()), amount)
      ensures old(lpFeesCollected) + amount <= U64_MAX ==> lpFeesCollected == old(lpFeesCollected) + amount
      ensures old(lpFeesCollected) + amount > U64_MAX ==> lpFeesCollected == 0
    {
      lpFeesCollected := AddOrZero(lpFeesCollected, amount, U64_MAX);
    }
  }

  /** A participant's position account (`UserStakingPosition`). */
  class UserStakingPosition {
    var owner: Pubkey
    var globalStakingState: Pubkey
    var stakedAmount: U64
    var xleashAmount: U64
    var userRewardsPerToken: U128
    var pendingRewards: U64
    var stakingStartTime: I64
    var lastClaimTime: I64
    var isLocked: bool
    var lockEndTime: I64

    /** The account's data as a record. */
    function Value(): Position
      reads this
    {
      Position(owner, globalStakingState, stakedAmount, xleashAmount, userRewardsPerToken,
               pendingRewards, stakingStartTime, lastClaimTime, isLocked, lockEndTime)
    }

    /** A position account as `init_if_needed` allocates it: every byte zero. */
    constructor Zeroed()
      ensures Value() == ZeroedPosition()
    {
      owner, globalStakingState, stakedAmount, xleashAmount := DEFAULT_PUBKEY, DEFAULT_PUBKEY, 0, 0;
      userRewardsPerToken, pendingRewards, stakingStartTime, lastClaimTime := 0, 0, 0, 0;
      isLocked, lockEndTime := false, 0;
    }

    /**
     * Writes every field of the account from a record. The handlers use it to put back
     * the record a failed transaction started from, as the runtime discards its writes.
     */
    method Store(saved: Position)
      modifies this
      ensures Value() == saved
    {
      owner, globalStakingState, stakedAmount := saved.owner, saved.globalStakingState, saved.stakedAmount;
      xleashAmount, userRewardsPerToken, pendingRewards := saved.xleashAmount, saved.userRewardsPerToken, saved.pendingRewards;
      stakingStartTime, lastClaimTime := saved.stakingStartTime, saved.lastClaimTime;
      isLocked, lockEndTime := saved.isLocked, saved.lockEndTime;
    }

    /** `UserStakingPosition::initialize` at clock reading `now`. */
    method Initialize(owner: Pubkey, pool: Pubkey, now: I64)
      modifies this
      ensures Value() == FreshPosition(owner, pool, now)
      ensures stakedAmount == 0 && xleashAmount == 0 && userRewardsPerToken == 0 && pendingRewards == 0
      ensures !isLocked && lockEndTime == 0
    {
      this.owner := owner;
      globalStakingState := pool;
      stakedAmount := 0;
      xleashAmount := 0;
      userRewardsPerToken := 0;
      pendingRewards := 0;
      stakingStartTime := now;
      lastClaimTime := now;
      isLocked := false;
      lockEndTime := 0;
    }

    /** `UserStakingPosition::update_rewards`: settles pending rewards against the pool's accumulator. */
    method UpdateRewards(global: GlobalStakingState)
      modifies this
      ensures Value() == Reconcile(old(Value()), global.accumulatedRewardsPerToken)
      ensures userRewardsPerToken == global.accumulatedRewardsPerToken
    {
      var pending := PendingRewards(Value(), global.accumulatedRewardsPerToken);
      pendingRewards := pending;
      userRewardsPerToken := global.accumulatedRewardsPerToken;
    }

    /** `UserStakingPosition::stake` at clock reading `now`; an overflowing field resets to 0. */
    method Stake(amount: U64, xleashAmount: U64, now: I64)
      modifies this
      ensures Value() == StakePosition(old(Value()), amount, xleashAmount, now)
      ensures old(stakedAmount) + amount <= U64_MAX ==> stakedAmount == old(stakedAmount) + amount
      ensures old(this.xleashAmount) + xleashAmount <= U64_MAX ==> this.xleashAmount == old(this.xleashAmount) + xleashAmount
      ensures pendingRewards == old(pendingRewards) && userRewardsPerToken == old(userRewardsPerToken)
    {
      stakedAmount := AddOrZero(stakedAmount, amount, U64_MAX);
      this.xleashAmount := AddOrZero(this.xleashAmount, xleashAmount, U64_MAX);
      stakingStartTime := now;
    }

    /** `UserStakingPosition::unstake`: both balances fall by the amounts, saturating at 0. */
    method Unstake(amount: U64, xleashAmount: U64)
      modifies this
      ensures Value() == UnstakePosition(old(Value()), amount, xleashAmount)
      ensures stakedAmount == if old(stakedAmount) >= amount then old(stakedAmount) - amount else 0
      ensures this.xleashAmount == if old(this.xleashAmount) >= xleashAmount then old(this.xleashAmount) - xleashAmount else 0
    {
      stakedAmount := SubOrZero(stakedAmount, amount);
      this.xleashAmount := SubOrZero(this.xleashAmount, xleashAmount);
    }

    /** `UserStakingPosition::claim_rewards` at clock reading `now`: pending falls by `amount`, saturating at 0. */
    method ClaimRewards(amount: U64, now: I64)
      modifies this
      ensures Value() == ClaimPosition(old(Value()), amount, now)
      ensures pendingRewards == if old(pendingRewards) >= amount then old(pendingRewards) - amount else 0
      ensures lastClaimTime == now
    {
      pendingRewards := SubOrZero(pendingRewards, amount);
      lastClaimTime := now;
    }
  }
}
